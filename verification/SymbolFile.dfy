/**
 Symbol files: the contents of a module in module.h, and how module.cc writes them.
 */
module SymbolFile {
  import opened CfiText
  import opened DecimalNumbers
  import opened HexNumbers
  import opened OrderedKeys
  import opened Words

  type RuleMap = map<string, string>

  /** `Module::StackFrameEntry`. */
  datatype StackFrameEntry = StackFrameEntry(
    address: Address, size: Address, initialRules: RuleMap, ruleChanges: map<Address, RuleMap>)

  /** `Module::Line`, with the name of its file. */
  datatype SourceLine = SourceLine(address: Address, size: Address, file: string, number: int)

  /** `Module::Function`. */
  datatype Function = Function(
    name: string, address: Address, size: Address, parameterSize: Address, lines: seq<SourceLine>)

  /** `Module::Extern`. */
  datatype Extern = Extern(address: Address, name: string)

  /** What a module is made with. */
  datatype Identity = Identity(name: string, os: string, architecture: string, id: string, codeId: string)

  /** What `Write` is asked to write. */
  datatype SymbolData = AllSymbolData | OnlyCfi | NoCfi

  const LINE_END: char := '\n'

  // ----- the text

  /** What `WriteRuleMap` writes. */
  ghost function RuleMapText(m: RuleMap): string { AppendAll("", NamesInOrder(m), m) }

  ghost function AddressesInOrder(changes: map<Address, RuleMap>): (order: seq<Address>)
    ensures Lists(order, changes.Keys, AddressAtMost)
  {
    AddressOrder();
    InOrder(changes.Keys, AddressAtMost)
  }

  /** Iterate over the changes of an entry. */
  method IterateAddresses(changes: map<Address, RuleMap>) returns (order: seq<Address>)
    ensures order == AddressesInOrder(changes)
  {
    AddressOrder();
    order := Iterate(changes.Keys, AddressAtMost);
  }

  const RECORD: string := "STACK CFI "

  const INIT: string := "INIT"

  /** The fields of an initial record, with the word INIT before them. */
  function InitText(base: string, size: string, rules: string): string {
    INIT + [' '] + base + [' '] + size + [' '] + rules
  }

  function DeltaText(address: string, rules: string): string {
    address + [' '] + rules
  }

  ghost function InitLine(e: StackFrameEntry, load: Address): string {
    RECORD + InitText(HexText(WrapSub(e.address, load)), HexText(e.size), RuleMapText(e.initialRules))
  }

  ghost function DeltaLine(address: Address, rules: RuleMap, load: Address): string {
    RECORD + DeltaText(HexText(WrapSub(address, load)), RuleMapText(rules))
  }

  ghost function DeltaLines(order: seq<Address>, changes: map<Address, RuleMap>, load: Address): seq<string>
    requires forall a <- order :: a in changes
  {
    if order == [] then []
    else [DeltaLine(order[0], changes[order[0]], load)] + DeltaLines(order[1..], changes, load)
  }

  ghost function EntryLines(e: StackFrameEntry, load: Address): seq<string> {
    [InitLine(e, load)] + DeltaLines(AddressesInOrder(e.ruleChanges), e.ruleChanges, load)
  }

  /** Lines with a line end behind each. */
  function Text(lines: seq<string>): string {
    if lines == [] then [] else lines[0] + [LINE_END] + Text(lines[1..])
  }

  lemma {:induction false} TextBoth(a: seq<string>, b: seq<string>)
    ensures Text(a + b) == Text(a) + Text(b)
  {
    if a == [] {
      assert a + b == b;
    } else {
      assert (a + b)[1..] == a[1..] + b;
      TextBoth(a[1..], b);
      assert a[0] + [LINE_END] + (Text(a[1..]) + Text(b)) == Text(a) + Text(b);
    }
  }

  /** The lines of all entries. */
  ghost function CfiLines(entries: seq<StackFrameEntry>, load: Address): seq<string> {
    if entries == [] then []
    else CfiLines(entries[..|entries| - 1], load) + EntryLines(entries[|entries| - 1], load)
  }

  // ----- the other records

  function ModuleLine(i: Identity): string {
    "MODULE " + i.os + [' '] + i.architecture + [' '] + i.id + [' '] + i.name
  }

  function InfoLines(i: Identity): seq<string> { if i.codeId != "" then ["INFO CODE_ID " + i.codeId] else [] }

  /** The files that lines of functions are in. */
  function CitedFiles(functions: seq<Function>): set<string> {
    set f, l | f in functions && l in f.lines :: l.file
  }

  /** The cited files in the order of their names, which is that of their source ids. */
  ghost function Files(functions: seq<Function>): (order: seq<string>)
    ensures Lists(order, CitedFiles(functions), TextAtMost)
  {
    TextOrder();
    InOrder(CitedFiles(functions), TextAtMost)
  }

  /** The source id of a file. */
  function SourceId(files: seq<string>, file: string): (id: nat)
    requires file in files
    ensures id < |files| && files[id] == file
  {
    if files[0] == file then 0 else 1 + SourceId(files[1..], file)
  }

  function FileLine(id: nat, file: string): string { "FILE " + DecimalText(id) + [' '] + file }

  function FileLines(files: seq<string>, n: nat): seq<string>
    requires n <= |files|
  {
    if n == 0 then [] else FileLines(files, n - 1) + [FileLine(n - 1, files[n - 1])]
  }

  function FunctionLine(f: Function, load: Address): string {
    "FUNC " + HexText(WrapSub(f.address, load)) + [' '] + HexText(f.size) + [' '] + HexText(f.parameterSize)
    + [' '] + f.name
  }

  function LineLine(l: SourceLine, id: nat, load: Address): string {
    HexText(WrapSub(l.address, load)) + [' '] + HexText(l.size) + [' '] + SignedText(l.number) + [' '] + DecimalText(id)
  }

  function LineLines(lines: seq<SourceLine>, files: seq<string>, load: Address): seq<string>
    requires forall l <- lines :: l.file in files
  {
    if lines == [] then []
    else
      var n := |lines| - 1;
      LineLines(lines[..n], files, load) + [LineLine(lines[n], SourceId(files, lines[n].file), load)]
  }

  function FunctionLines(functions: seq<Function>, files: seq<string>, load: Address): seq<string>
    requires forall f <- functions, l <- f.lines :: l.file in files
  {
    if functions == [] then []
    else
      var n := |functions| - 1;
      FunctionLines(functions[..n], files, load)
      + ([FunctionLine(functions[n], load)] + LineLines(functions[n].lines, files, load))
  }

  function ExternLine(e: Extern, load: Address): string {
    "PUBLIC " + HexText(WrapSub(e.address, load)) + [' '] + ['0'] + [' '] + e.name
  }

  function ExternLines(externs: seq<Extern>, load: Address): seq<string> {
    if externs == [] then []
    else ExternLines(externs[..|externs| - 1], load) + [ExternLine(externs[|externs| - 1], load)]
  }

  /** All lines before those for call frame information. */
  ghost function HeaderLines(identity: Identity, functions: seq<Function>, externs: seq<Extern>, load: Address,
      data: SymbolData): seq<string>
  {
    [ModuleLine(identity)] + InfoLines(identity)
    + if data.OnlyCfi? then []
      else
        var files := Files(functions);
        FileLines(files, |files|) + FunctionLines(functions, files, load) + ExternLines(externs, load)
  }

  lemma {:induction false} TextThenLine(lines: seq<string>, line: string)
    ensures Text(lines + [line]) == Text(lines) + line + [LINE_END]
  {
    assert [line][1..] == [];
    TextBoth(lines, [line]);
    assert Text(lines) + (line + [LINE_END] + []) == Text(lines) + line + [LINE_END];
  }

  // ----- the writer

  method WriteFiles(files: seq<string>) returns (stream: string)
    ensures stream == Text(FileLines(files, |files|))
  {
    hide DecimalText, Text;
    stream := "";
    TextOfNone();
    for i := 0 to |files|
      invariant stream == Text(FileLines(files, i))
    {
      TextThenLine(FileLines(files, i), FileLine(i, files[i]));
      stream := stream + ("FILE " + DecimalText(i) + [' '] + files[i]) + [LINE_END];
    }
  }

  lemma {:induction false} TextOfNone()
    ensures Text([]) == ""
  {
  }

  method WriteLines(lines: seq<SourceLine>, files: seq<string>, load: Address) returns (stream: string)
    requires forall l <- lines :: l.file in files
    ensures stream == Text(LineLines(lines, files, load))
  {
    hide HexText, DecimalText, SignedText, Text, SourceId, WrapSub;
    stream := "";
    TextOfNone();
    for i := 0 to |lines|
      invariant stream == Text(LineLines(lines[..i], files, load))
    {
      var l := lines[i];
      assert l in lines && lines[..i + 1][..i] == lines[..i];
      TextThenLine(LineLines(lines[..i], files, load), LineLine(l, SourceId(files, l.file), load));
      stream := stream
        + (HexText(WrapSub(l.address, load)) + [' '] + HexText(l.size) + [' '] + SignedText(l.number) + [' ']
           + DecimalText(SourceId(files, l.file)))
        + [LINE_END];
    }
    assert lines[..|lines|] == lines;
  }

  method WriteFunctions(functions: seq<Function>, files: seq<string>, load: Address) returns (stream: string)
    requires forall f <- functions, l <- f.lines :: l.file in files
    ensures stream == Text(FunctionLines(functions, files, load))
  {
    hide HexText, Text, LineLines, WrapSub;
    stream := "";
    TextOfNone();
    for i := 0 to |functions|
      invariant stream == Text(FunctionLines(functions[..i], files, load))
    {
      var f := functions[i];
      assert f in functions && functions[..i + 1][..i] == functions[..i];
      var line := "FUNC " + HexText(WrapSub(f.address, load)) + [' '] + HexText(f.size) + [' ']
        + HexText(f.parameterSize) + [' '] + f.name;
      var lines := WriteLines(f.lines, files, load);
      TextThenLine([], line);
      assert [] + [line] == [line];
      TextBoth([line], LineLines(f.lines, files, load));
      TextBoth(FunctionLines(functions[..i], files, load), [line] + LineLines(f.lines, files, load));
      stream := stream + (line + [LINE_END] + lines);
    }
    assert functions[..|functions|] == functions;
  }

  method WriteExterns(externs: seq<Extern>, load: Address) returns (stream: string)
    ensures stream == Text(ExternLines(externs, load))
  {
    hide HexText, Text, WrapSub;
    stream := "";
    TextOfNone();
    for i := 0 to |externs|
      invariant stream == Text(ExternLines(externs[..i], load))
    {
      var e := externs[i];
      assert externs[..i + 1][..i] == externs[..i];
      TextThenLine(ExternLines(externs[..i], load), ExternLine(e, load));
      stream := stream
        + ("PUBLIC " + HexText(WrapSub(e.address, load)) + [' '] + ['0'] + [' '] + e.name) + [LINE_END];
    }
    assert externs[..|externs|] == externs;
  }

  method WriteRuleMap(rules: RuleMap) returns (stream: string)
    ensures stream == RuleMapText(rules)
  {
    hide AppendAll;
    var order := IterateNames(rules);
    stream := "";
    assert order[0..] == order;
    for i := 0 to |order|
      invariant AppendAll("", order, rules) == AppendAll(stream, order[i..], rules)
      invariant i == 0 <==> stream == ""
    {
      assert order[i] in order;
      assert order[i..][1..] == order[i + 1..];
      AppendAllStep(stream, order[i..], rules);
      if i != 0 {
        stream := stream + [' '];
      }
      stream := stream + (order[i] + [':'] + [' '] + rules[order[i]]);
    }
    NothingToAppend(stream, rules);
  }

  /** `Module`; functions and externs are sets in the program, iterated over in the order of their addresses. */
  class Module {
    const identity: Identity
    const functions: seq<Function>
    const externs: seq<Extern>
    var loadAddress: Address
    var stackFrameEntries: seq<StackFrameEntry>

    constructor (identity: Identity, functions: seq<Function>, externs: seq<Extern>)
      ensures this.identity == identity && this.functions == functions && this.externs == externs
      ensures loadAddress == 0 && stackFrameEntries == []
    {
      this.identity, this.functions, this.externs := identity, functions, externs;
      loadAddress, stackFrameEntries := 0, [];
    }

    method SetLoadAddress(address: Address)
      modifies this`loadAddress
      ensures loadAddress == address
    {
      loadAddress := address;
    }

    method AddStackFrameEntry(entry: StackFrameEntry)
      modifies this`stackFrameEntries
      ensures stackFrameEntries == old(stackFrameEntries) + [entry]
    {
      stackFrameEntries := stackFrameEntries + [entry];
    }

    ghost function Header(data: SymbolData): seq<string>
      reads this
    {
      HeaderLines(identity, functions, externs, loadAddress, data)
    }

    method Write(data: SymbolData) returns (stream: string)
      ensures stream
           == Text(Header(data) + if data.NoCfi? then [] else CfiLines(stackFrameEntries, loadAddress))
    {
      stream := WriteHeader(data);
      var cfi := "";
      if !data.NoCfi? {
        cfi := WriteCFI();
        TextBoth(Header(data), CfiLines(stackFrameEntries, loadAddress));
      }
      assert Header(data) + [] == Header(data);
      stream := stream + cfi;
    }

    /** `AssignSourceIds`: each file cited has its place in the order of names for its id. */
    method AssignSourceIds() returns (files: seq<string>)
      ensures files == Files(functions)
    {
      TextOrder();
      files := Iterate(CitedFiles(functions), TextAtMost);
    }

    /** The first part of `Write`. */
    method WriteHeader(data: SymbolData) returns (stream: string)
      ensures stream == Text(Header(data))
    {
      hide Text, FileLines, FunctionLines, ExternLines, ModuleLine;
      ghost var start := [ModuleLine(identity)];
      TextThenLine([], ModuleLine(identity));
      assert [] + start == start;
      TextOfNone();
      stream := ModuleLine(identity) + [LINE_END];
      if identity.codeId != "" {
        TextThenLine(start, "INFO CODE_ID " + identity.codeId);
        stream := stream + ("INFO CODE_ID " + identity.codeId) + [LINE_END];
      }
      assert start + [] == start;
      start := start + InfoLines(identity);
      ghost var rest: seq<string> := [];
      assert stream == Text(start) && stream + "" == stream;
      if !data.OnlyCfi? {
        var ids := AssignSourceIds();
        var files := WriteFiles(ids);
        var functions := WriteFunctions(functions, ids, loadAddress);
        var externs := WriteExterns(externs, loadAddress);
        TextBoth(FileLines(ids, |ids|), FunctionLines(this.functions, ids, loadAddress));
        TextBoth(FileLines(ids, |ids|) + FunctionLines(this.functions, ids, loadAddress),
                 ExternLines(this.externs, loadAddress));
        rest := FileLines(ids, |ids|) + FunctionLines(this.functions, ids, loadAddress)
                + ExternLines(this.externs, loadAddress);
        stream := stream + (files + functions + externs);
      }
      TextBoth(start, rest);
      assert Header(data) == start + rest;
    }

    /** The last part of `Write`. */
    method WriteCFI() returns (stream: string)
      ensures stream == Text(CfiLines(stackFrameEntries, loadAddress))
    {
      stream := "";
      for i := 0 to |stackFrameEntries|
        invariant stream == Text(CfiLines(stackFrameEntries[..i], loadAddress))
      {
        var entry := stackFrameEntries[i];
        var lines := WriteEntry(entry, loadAddress);
        stream := stream + lines;
        assert stackFrameEntries[..i + 1][..i] == stackFrameEntries[..i];
        TextBoth(CfiLines(stackFrameEntries[..i], loadAddress), EntryLines(entry, loadAddress));
      }
      assert stackFrameEntries[..|stackFrameEntries|] == stackFrameEntries;
    }
  }

  lemma {:induction false} TextOfMore(written: string, line: string, rest: seq<string>)
    ensures written + Text([line] + rest) == written + line + [LINE_END] + Text(rest)
  {
    assert ([line] + rest)[1..] == rest;
    assert written + (line + [LINE_END] + Text(rest)) == written + line + [LINE_END] + Text(rest);
  }

  lemma {:induction false} LineFromLeft(base: string, size: string, rules: string)
    ensures RECORD + INIT + [' '] + base + [' '] + size + [' '] + rules == RECORD + InitText(base, size, rules)
    ensures RECORD + base + [' '] + rules == RECORD + DeltaText(base, rules)
  {
  }

  /** One round of the loop over the entries in `Write`. */
  method WriteEntry(entry: StackFrameEntry, load: Address) returns (stream: string)
    ensures stream == Text(EntryLines(entry, load))
  {
    assert Text([]) == [];
    hide HexText, RuleMapText, Text, InitText, DeltaText;
    var order := IterateAddresses(entry.ruleChanges);
    stream := RECORD + INIT + [' '] + HexText(WrapSub(entry.address, load)) + [' '] + HexText(entry.size) + [' '];
    var rules := WriteRuleMap(entry.initialRules);
    stream := stream + rules;
    LineFromLeft(HexText(WrapSub(entry.address, load)), HexText(entry.size), rules);
    TextOfMore("", stream, DeltaLines(order, entry.ruleChanges, load));
    stream := stream + [LINE_END];
    assert order[0..] == order;
    for i := 0 to |order|
      invariant Text(EntryLines(entry, load)) == stream + Text(DeltaLines(order[i..], entry.ruleChanges, load))
    {
      assert order[i] in order;
      assert order[i..][1..] == order[i + 1..];
      var line := RECORD + HexText(WrapSub(order[i], load)) + [' '];
      rules := WriteRuleMap(entry.ruleChanges[order[i]]);
      line := line + rules;
      LineFromLeft(HexText(WrapSub(order[i], load)), "", rules);
      TextOfMore(stream, line, DeltaLines(order[i + 1..], entry.ruleChanges, load));
      stream := stream + line + [LINE_END];
    }
  }
}
