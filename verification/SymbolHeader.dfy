/**
 The records that a symbol file has before those for call frames: the loader takes all that module.cc
 writes, so the call frame information behind them is found.
 */
module SymbolHeaders {
  import opened CText
  import opened CfiFrameInfos
  import opened CfiRecords
  import opened CfiRules
  import opened CfiText
  import opened CfiTranslation
  import opened DecimalNumbers
  import opened HexNumbers
  import opened OrderedKeys
  import opened RangeMaps
  import opened SourceLineResolver
  import opened SymbolFile
  import opened SymbolLines
  import opened SymbolParsing
  import opened Words

  // ----- what can be written so that it is read

  predicate IsLabel(s: string) { Clean(s, TEXT_ENDS) }

  /** The loader does not take the greatest number for an address or a size. */
  predicate IsRange(address: Address, size: Address, load: Address) {
    WrapSub(address, load) != ADDRESS_SPACE - 1 && size != ADDRESS_SPACE - 1
  }

  predicate IsWritableLine(l: SourceLine, load: Address) {
    IsPiece(l.file) && IsRange(l.address, l.size, load) && 0 <= l.number < LONG_MAX
  }

  predicate IsWritableFunction(f: Function, load: Address) {
    && IsPiece(f.name) && IsRange(f.address, f.size, load) && f.parameterSize < LONG_MAX
    && forall l <- f.lines :: IsWritableLine(l, load)
  }

  predicate AreWritableExterns(externs: seq<Extern>, load: Address) {
    && (forall e <- externs :: IsPiece(e.name) && IsRange(e.address, 0, load))
    && (forall i, j :: 0 <= i < j < |externs| ==> externs[i].address != externs[j].address)
  }

  /** Names have no line breaks, and no number is too great. */
  ghost predicate IsWritable(identity: Identity, functions: seq<Function>, externs: seq<Extern>, load: Address) {
    && IsLabel(identity.os) && IsLabel(identity.architecture) && IsLabel(identity.id) && IsLabel(identity.name)
    && IsLabel(identity.codeId)
    && (forall f <- functions :: IsWritableFunction(f, load)) && |Files(functions)| <= LONG_MAX
    && AreWritableExterns(externs, load)
  }

  // ----- each kind of line

  lemma {:induction false} LabelsTogether(a: string, b: string)
    requires IsLabel(a) && IsLabel(b)
    ensures IsLabel(a + b)
  {
  }

  lemma {:induction false} Marks()
    ensures IsLabel([' ']) && IsLabel(FILE) && IsLabel(FUNC) && IsLabel(PUBLIC) && IsLabel(MODULE)
    ensures IsLabel(INFO + "CODE_ID ") && IsLabel(['0'])
  {
  }

  lemma {:induction false} NumbersAreLabels(n: nat)
    ensures IsLabel(HexText(n)) && IsLabel(DecimalText(n))
  {
    HexIsField(n);
    hide HexText, DecimalText;
    var digits := DecimalText(n);
    assert forall c <- digits :: '0' <= c <= '9';
  }

  /** Fields with a space behind each but the last. */
  lemma {:induction false} FourFields(a: string, b: string, c: string, d: string)
    requires IsToken(a, FIELD_BREAKS) && IsToken(b, FIELD_BREAKS) && IsToken(c, FIELD_BREAKS) && IsPiece(d)
    ensures Tokenized(a + [' '] + b + [' '] + c + [' '] + d, 4) == Some([a, b, c, d])
  {
    hide Strtok, IsToken;
    ThreeFields(b, c, d);
    var rest := b + [' '] + c + [' '] + d;
    assert a + [' '] + b + [' '] + c + [' '] + d == a + [' '] + rest;
    StrtokOfTokenThenBreak(a, ' ', rest, FIELD_BREAKS);
    assert [a] + [b, c, d] == [a, b, c, d];
  }

  lemma {:induction false} ThreeFields(a: string, b: string, c: string)
    requires IsToken(a, FIELD_BREAKS) && IsToken(b, FIELD_BREAKS) && IsPiece(c)
    ensures Tokenized(a + [' '] + b + [' '] + c, 3) == Some([a, b, c])
  {
    hide Strtok, IsToken;
    TwoFields(b, c);
    var rest := b + [' '] + c;
    assert a + [' '] + b + [' '] + c == a + [' '] + rest;
    StrtokOfTokenThenBreak(a, ' ', rest, FIELD_BREAKS);
    assert [a] + [b, c] == [a, b, c];
  }

  lemma {:induction false} TwoFields(a: string, b: string)
    requires IsToken(a, FIELD_BREAKS) && IsPiece(b)
    ensures Tokenized(a + [' '] + b, 2) == Some([a, b])
  {
    hide Strtok;
    StrtokOfTokenThenBreak(a, ' ', b, FIELD_BREAKS);
    PieceIsToken(b);
    StrtokOfToken(b, LINE_BREAKS);
    assert [a] + [b] == [a, b];
  }

  lemma {:induction false} PrefixOf(a: string, b: string)
    ensures a <= a + b && (a + b)[|a|..] == b
  {
  }

  lemma {:induction false} OnlyPrefix(line: string, other: string)
    requires line != "" && other != "" && line[0] != other[0]
    ensures !(other <= line)
  {
  }

  lemma {:induction false} EnterModuleLine(loader: Loader, i: Identity)
    requires Disjoint(loader.tables.initial)
    ensures EnterLine(loader, ModuleLine(i)) == LineRead(true, loader) && !(STACK <= ModuleLine(i))
    ensures EnterLine(loader, "INFO CODE_ID " + i.codeId) == LineRead(true, loader)
    ensures !(STACK <= "INFO CODE_ID " + i.codeId)
  {
    hide EnterStack, EnterPublic, Disjoint;
    assert ModuleLine(i) == MODULE + (i.os + [' '] + i.architecture + [' '] + i.id + [' '] + i.name);
    assert "INFO CODE_ID " + i.codeId == INFO + ("CODE_ID " + i.codeId);
    assert MODULE[0] == 'M' && FILE[0] == 'F' && FUNC[0] == 'F' && STACK[0] == 'S' && PUBLIC[0] == 'P'
        && INFO[0] == 'I';
  }

  lemma {:induction false} EnterFileLine(loader: Loader, id: nat, file: string)
    requires Disjoint(loader.tables.initial) && id < LONG_MAX && IsPiece(file)
    ensures EnterLine(loader, FileLine(id, file)) == LineRead(true, loader)
    ensures FileOf(FileLine(id, file)[|FILE|..]) == Some(FileRecord(id, file))
    ensures IsPiece(FileLine(id, file)) && !(STACK <= FileLine(id, file))
  {
    hide EnterStack, EnterPublic, Disjoint, DecimalText, Tokenized, IsCountField, StrToL;
    var line, text := FileLine(id, file), DecimalText(id) + [' '] + file;
    assert line == FILE + text;
    PrefixOf(FILE, text);
    assert FILE[0] == 'F' && STACK[0] == 'S';
    ReadDecimalField(id);
    TwoFields(DecimalText(id), file);
    Marks();
    NumbersAreLabels(id);
    LabelsTogether(DecimalText(id), [' ']);
    LabelsTogether(DecimalText(id) + [' '], file);
    LabelsTogether(FILE, text);
  }

  lemma {:induction false} EnterFunctionLine(loader: Loader, f: Function, load: Address)
    requires Disjoint(loader.tables.initial) && IsWritableFunction(f, load)
    ensures EnterLine(loader, FunctionLine(f, load)) == LineRead(true, loader.(inFunction := true))
    ensures FunctionOf(FunctionLine(f, load)[|FUNC|..])
         == Some(FunctionRecord(WrapSub(f.address, load), f.size, f.parameterSize, f.name))
    ensures IsPiece(FunctionLine(f, load)) && !(STACK <= FunctionLine(f, load))
  {
    hide EnterStack, EnterPublic, Disjoint, HexText, Tokenized, IsCountField, IsHexField, LineOf, FileOf, StrToUL,
      StrToL;
    var a, b, c := HexText(WrapSub(f.address, load)), HexText(f.size), HexText(f.parameterSize);
    var line, text := FunctionLine(f, load), a + [' '] + b + [' '] + c + [' '] + f.name;
    assert line == FUNC + text;
    PrefixOf(FUNC, text);
    assert FUNC[1] == 'U' && FILE[1] == 'I' && STACK[0] == 'S';
    ReadHexField(WrapSub(f.address, load));
    ReadHexField(f.size);
    ReadHexField(f.parameterSize);
    ReadHexText(WrapSub(f.address, load));
    ReadHexText(f.size);
    FourFields(a, b, c, f.name);
    FieldsAreLabel(FUNC, a, b, c, f.name, WrapSub(f.address, load), f.size, f.parameterSize);
  }

  lemma {:induction false} FieldsAreLabel(mark: string, a: string, b: string, c: string, d: string, x: nat,
      y: nat, z: nat)
    requires IsLabel(mark) && IsLabel(d)
    requires a == HexText(x) && b == HexText(y) && (c == HexText(z) || c == DecimalText(z))
    ensures IsLabel(mark + (a + [' '] + b + [' '] + c + [' '] + d))
  {
    hide IsLabel, HexText, DecimalText;
    Marks();
    NumbersAreLabels(x);
    NumbersAreLabels(y);
    NumbersAreLabels(z);
    LabelsTogether(a, [' ']);
    LabelsTogether(a + [' '], b);
    LabelsTogether(a + [' '] + b, [' ']);
    LabelsTogether(a + [' '] + b + [' '], c);
    LabelsTogether(a + [' '] + b + [' '] + c, [' ']);
    LabelsTogether(a + [' '] + b + [' '] + c + [' '], d);
    LabelsTogether(mark, a + [' '] + b + [' '] + c + [' '] + d);
  }

  lemma {:induction false} EnterLineLine(loader: Loader, l: SourceLine, id: nat, load: Address)
    requires Disjoint(loader.tables.initial) && loader.inFunction && IsWritableLine(l, load) && id < LONG_MAX
    ensures EnterLine(loader, LineLine(l, id, load)) == LineRead(true, loader)
    ensures LineOf(LineLine(l, id, load)) == Some(LineRecord(WrapSub(l.address, load), l.size, l.number, id))
    ensures IsPiece(LineLine(l, id, load)) && !(STACK <= LineLine(l, id, load))
  {
    hide EnterStack, EnterPublic, Disjoint, HexText, DecimalText, Tokenized, IsCountField, IsHexField, FileOf,
      FunctionOf, PublicOf, StrToUL, StrToL;
    var a, b, c, d := HexText(WrapSub(l.address, load)), HexText(l.size), DecimalText(l.number), DecimalText(id);
    var line := LineLine(l, id, load);
    assert line == a + [' '] + b + [' '] + c + [' '] + d;
    ReadHexField(WrapSub(l.address, load));
    ReadHexField(l.size);
    ReadHexText(WrapSub(l.address, load));
    ReadHexText(l.size);
    ReadDecimalField(l.number);
    ReadDecimalField(id);
    NumbersAreLabels(id);
    FourFields(a, b, c, d);
    FieldsAreLabel("", a, b, c, d, WrapSub(l.address, load), l.size, l.number);
    assert "" + line == line;
    HexTextIsDigits(WrapSub(l.address, load));
    HexTextIsLower(WrapSub(l.address, load));
    assert line[0] == a[0] && a[0] in a;
    NoMark(line);
  }

  lemma {:induction false} HexTextIsLower(n: nat)
    ensures forall c <- HexText(n) :: '0' <= c <= '9' || 'a' <= c <= 'f'
  {
    assert forall d: nat :: d < 16 ==> '0' <= Digit(d) <= '9' || 'a' <= Digit(d) <= 'f';
    if n >= 16 {
      HexTextIsLower(n / 16);
    }
  }

  lemma {:induction false} NoMark(line: string)
    requires line != "" && (IsDigit(line[0]) && line[0] != 'F')
    ensures !(FILE <= line) && !(STACK <= line) && !(FUNC <= line) && !(PUBLIC <= line) && !(MODULE <= line)
    ensures !(INFO <= line)
  {
    assert MODULE[0] == 'M' && FILE[0] == 'F' && FUNC[0] == 'F' && STACK[0] == 'S' && PUBLIC[0] == 'P'
        && INFO[0] == 'I';
  }

  lemma {:induction false} EnterExternLine(loader: Loader, e: Extern, load: Address)
    requires Disjoint(loader.tables.initial) && IsPiece(e.name) && IsRange(e.address, 0, load)
    requires WrapSub(e.address, load) !in loader.publics
    ensures EnterLine(loader, ExternLine(e, load)) == LineRead(true, loader.(inFunction := false,
      publics := loader.publics + if WrapSub(e.address, load) == 0 then {} else {WrapSub(e.address, load)}))
    ensures PublicOf(ExternLine(e, load)[|PUBLIC|..]) == Some(PublicRecord(WrapSub(e.address, load), 0, e.name))
    ensures IsPiece(ExternLine(e, load)) && !(STACK <= ExternLine(e, load))
  {
    hide EnterStack, Disjoint, HexText, Tokenized, IsCountField, IsHexField, FileOf, FunctionOf, LineOf, StrToUL,
      StrToL;
    var a := HexText(WrapSub(e.address, load));
    var line, text := ExternLine(e, load), a + [' '] + ['0'] + [' '] + e.name;
    assert line == PUBLIC + text;
    PrefixOf(PUBLIC, text);
    assert FUNC[0] == 'F' && FILE[0] == 'F' && STACK[0] == 'S' && PUBLIC[0] == 'P';
    ReadHexField(WrapSub(e.address, load));
    ReadHexText(WrapSub(e.address, load));
    ReadHexField(0);
    ZeroIsZero();
    ThreeFields(a, ['0'], e.name);
    Marks();
    NumbersAreLabels(WrapSub(e.address, load));
    LabelsTogether(a, [' ']);
    LabelsTogether(a + [' '], ['0']);
    LabelsTogether(a + [' '] + ['0'], [' ']);
    LabelsTogether(a + [' '] + ['0'] + [' '], e.name);
    LabelsTogether(PUBLIC, text);
    assert loader.publics + {} == loader.publics;
  }

  lemma {:induction false} ZeroIsZero()
    ensures HexText(0) == ['0']
  {
  }

  // ----- all of them

  /** The lines are right, hold no STACK record, and lead from one state to the other. */
  ghost predicate Passes(loader: Loader, lines: seq<string>, loader': Loader)
    requires Disjoint(loader.tables.initial)
  {
    Clear(loader, lines, loader') && ArePieces(lines) && StackLines(lines) == []
  }

  lemma {:induction false} PassesNone(loader: Loader)
    requires Disjoint(loader.tables.initial)
    ensures Passes(loader, [], loader)
  {
    ClearNone(loader);
  }

  lemma {:induction false} PassesOne(loader: Loader, line: string)
    requires Disjoint(loader.tables.initial) && EnterLine(loader, line).ok && IsPiece(line) && !(STACK <= line)
    ensures Passes(loader, [line], EnterLine(loader, line).loader)
  {
    hide EnterLine, Clear, Disjoint, IsPiece;
    ClearOne(loader, line);
    assert [line][1..] == [];
    assert StackLines([line][1..]) == [];
  }

  lemma {:induction false} PassesBoth(loader: Loader, a: seq<string>, middle: Loader, b: seq<string>, loader': Loader)
    requires Disjoint(loader.tables.initial) && Disjoint(middle.tables.initial)
    requires Passes(loader, a, middle) && Passes(middle, b, loader')
    ensures Passes(loader, a + b, loader')
  {
    hide Clear, Disjoint, IsPiece, StackLines;
    ClearBoth(loader, a, middle, b, loader');
    StackLinesBoth(a, b);
  }

  lemma {:induction false} FilesPass(loader: Loader, files: seq<string>, n: nat)
    requires Disjoint(loader.tables.initial) && n <= |files| <= LONG_MAX && forall f <- files :: IsPiece(f)
    ensures Passes(loader, FileLines(files, n), loader)
  {
    hide Passes, EnterLine, FileLine, Disjoint, IsPiece;
    if n == 0 {
      PassesNone(loader);
    } else {
      FilesPass(loader, files, n - 1);
      EnterFileLine(loader, n - 1, files[n - 1]);
      PassesOne(loader, FileLine(n - 1, files[n - 1]));
      PassesBoth(loader, FileLines(files, n - 1), loader, [FileLine(n - 1, files[n - 1])], loader);
    }
  }

  lemma {:induction false} LinesPass(loader: Loader, lines: seq<SourceLine>, files: seq<string>, load: Address)
    requires Disjoint(loader.tables.initial) && loader.inFunction && |files| <= LONG_MAX
    requires forall l <- lines :: l.file in files && IsWritableLine(l, load)
    ensures Passes(loader, LineLines(lines, files, load), loader)
    decreases |lines|
  {
    hide Passes, EnterLine, LineLine, Disjoint, IsWritableLine, SourceId;
    if lines == [] {
      PassesNone(loader);
    } else {
      var before, l := lines[..|lines| - 1], lines[|lines| - 1];
      var line := LineLine(l, SourceId(files, l.file), load);
      LinesPass(loader, before, files, load);
      EnterLineLine(loader, l, SourceId(files, l.file), load);
      PassesOne(loader, line);
      PassesBoth(loader, LineLines(before, files, load), loader, [line], loader);
    }
  }

  lemma {:induction false} FunctionsPass(loader: Loader, functions: seq<Function>, files: seq<string>, load: Address)
    returns (loader': Loader)
    requires Disjoint(loader.tables.initial) && |files| <= LONG_MAX
    requires forall f <- functions :: IsWritableFunction(f, load) && forall l <- f.lines :: l.file in files
    ensures Passes(loader, FunctionLines(functions, files, load), loader')
    ensures loader'.tables == loader.tables && loader'.publics == loader.publics
    decreases |functions|
  {
    hide Passes, EnterLine, FunctionLine, LineLines, Disjoint, IsWritableLine;
    if functions == [] {
      PassesNone(loader);
      loader' := loader;
    } else {
      var before, f := functions[..|functions| - 1], functions[|functions| - 1];
      var middle := FunctionsPass(loader, before, files, load);
      loader' := middle.(inFunction := true);
      EnterFunctionLine(middle, f, load);
      PassesOne(middle, FunctionLine(f, load));
      LinesPass(loader', f.lines, files, load);
      PassesBoth(middle, [FunctionLine(f, load)], loader', LineLines(f.lines, files, load), loader');
      PassesBoth(loader, FunctionLines(before, files, load), middle,
                 [FunctionLine(f, load)] + LineLines(f.lines, files, load), loader');
    }
  }

  /** The public symbols are stored at their addresses, which are not those of others. */
  lemma {:induction false} ExternsPass(loader: Loader, externs: seq<Extern>, load: Address) returns (loader': Loader)
    requires Disjoint(loader.tables.initial) && loader.publics == {} && AreWritableExterns(externs, load)
    ensures Passes(loader, ExternLines(externs, load), loader') && loader'.tables == loader.tables
    ensures forall a <- loader'.publics :: exists e <- externs :: WrapSub(e.address, load) == a
    decreases |externs|
  {
    hide Passes, EnterLine, ExternLine, Disjoint, IsPiece, WrapSub, WrapAdd;
    if externs == [] {
      PassesNone(loader);
      loader' := loader;
    } else {
      var before, e := externs[..|externs| - 1], externs[|externs| - 1];
      assert e in externs && forall x <- before :: x in externs;
      var middle := ExternsPass(loader, before, load);
      forall x | x in before ensures WrapSub(x.address, load) != WrapSub(e.address, load) {
        ThereAndBack(x.address, load);
        ThereAndBack(e.address, load);
      }
      EnterExternLine(middle, e, load);
      loader' := EnterLine(middle, ExternLine(e, load)).loader;
      PassesOne(middle, ExternLine(e, load));
      PassesBoth(loader, ExternLines(before, load), middle, [ExternLine(e, load)], loader');
    }
  }

  /** The loader takes every line that is written before call frame information. */
  lemma {:induction false} HeaderPasses(identity: Identity, functions: seq<Function>, externs: seq<Extern>,
      load: Address, data: SymbolData) returns (loader: Loader)
    requires IsWritable(identity, functions, externs, load)
    ensures Passes(EMPTY, HeaderLines(identity, functions, externs, load, data), loader)
    ensures loader.tables == EMPTY.tables
  {
    hide Passes, EnterLine, ModuleLine, FileLines, FunctionLines, ExternLines, AreWritableExterns, Disjoint,
      IsWritableLine;
    assert Disjoint(EMPTY.tables.initial) by {
      NothingIsDisjoint();
    }
    StartPasses(identity);
    var start := [ModuleLine(identity)] + InfoLines(identity);
    loader := EMPTY;
    if data.OnlyCfi? {
      assert start + [] == start;
    } else {
      var files := Files(functions);
      FilesArePieces(functions, load);
      FilesPass(EMPTY, files, |files|);
      var middle := FunctionsPass(EMPTY, functions, files, load);
      PassesBoth(EMPTY, FileLines(files, |files|), EMPTY, FunctionLines(functions, files, load), middle);
      loader := ExternsPass(middle, externs, load);
      PassesBoth(EMPTY, FileLines(files, |files|) + FunctionLines(functions, files, load), middle,
                 ExternLines(externs, load), loader);
      PassesBoth(EMPTY, start, EMPTY,
                 FileLines(files, |files|) + FunctionLines(functions, files, load) + ExternLines(externs, load),
                 loader);
    }
  }

  lemma {:induction false} NothingIsDisjoint()
    ensures Disjoint(EMPTY.tables.initial)
  {
  }

  lemma {:induction false} FilesArePieces(functions: seq<Function>, load: Address)
    requires forall f <- functions :: IsWritableFunction(f, load)
    ensures forall f <- Files(functions) :: IsPiece(f)
    ensures forall f <- functions, l <- f.lines :: l.file in Files(functions)
  {
    hide IsPiece;
    forall x | x in Files(functions) ensures IsPiece(x) {
      assert x in CitedFiles(functions);
      var f, l :| f in functions && l in f.lines && l.file == x;
      assert IsWritableLine(l, load);
    }
  }

  lemma {:induction false} StartPasses(i: Identity)
    requires IsLabel(i.os) && IsLabel(i.architecture) && IsLabel(i.id) && IsLabel(i.name) && IsLabel(i.codeId)
    ensures Disjoint(EMPTY.tables.initial) && Passes(EMPTY, [ModuleLine(i)] + InfoLines(i), EMPTY)
  {
    hide Passes, EnterLine;
    ModuleLineIsPiece(i);
    EnterModuleLine(EMPTY, i);
    PassesOne(EMPTY, ModuleLine(i));
    if i.codeId != "" {
      PassesOne(EMPTY, "INFO CODE_ID " + i.codeId);
    } else {
      PassesNone(EMPTY);
    }
    PassesBoth(EMPTY, [ModuleLine(i)], EMPTY, InfoLines(i), EMPTY);
  }

  lemma {:induction false} ModuleLineIsPiece(i: Identity)
    requires IsLabel(i.os) && IsLabel(i.architecture) && IsLabel(i.id) && IsLabel(i.name) && IsLabel(i.codeId)
    ensures IsPiece(ModuleLine(i)) && IsPiece("INFO CODE_ID " + i.codeId)
  {
    Marks();
    assert IsLabel("MODULE ") && IsLabel("INFO CODE_ID ");
    assert IsLabel(ModuleLine(i)) by {
      hide IsLabel;
      LabelsTogether("MODULE ", i.os);
      LabelsTogether("MODULE " + i.os, [' ']);
      LabelsTogether("MODULE " + i.os + [' '], i.architecture);
      LabelsTogether("MODULE " + i.os + [' '] + i.architecture, [' ']);
      LabelsTogether("MODULE " + i.os + [' '] + i.architecture + [' '], i.id);
      LabelsTogether("MODULE " + i.os + [' '] + i.architecture + [' '] + i.id, [' ']);
      LabelsTogether("MODULE " + i.os + [' '] + i.architecture + [' '] + i.id + [' '], i.name);
    }
    LabelsTogether("INFO CODE_ID ", i.codeId);
    assert ModuleLine(i)[0] == 'M';
  }

  /** What `Write` writes is a file with the entries of the module. */
  lemma {:induction false} WrittenIsFile(identity: Identity, functions: seq<Function>, externs: seq<Extern>,
      load: Address, data: SymbolData, es: seq<StackFrameEntry>)
    requires IsWritable(identity, functions, externs, load) && forall e <- es :: HasWrittenMaps(e)
    ensures IsSymbolFile(HeaderLines(identity, functions, externs, load, data) + CfiLines(es, load), es, load)
  {
    hide HeaderLines, CfiLines, AddAll, HasWrittenMaps, StackLines, After, ErrorsIn, IsPiece, IsWritable, Disjoint;
    var header := HeaderLines(identity, functions, externs, load, data);
    NothingIsDisjoint();
    var loader := HeaderPasses(identity, functions, externs, load, data);
    EnterAll(loader, es, load);
    CfiLinesArePieces(es, load);
    ClearBoth(EMPTY, header, loader, CfiLines(es, load), loader.(tables := AddAll(es, load)));
    StackLinesBoth(header, CfiLines(es, load));
    assert [] + CfiLines(es, load) == CfiLines(es, load);
  }

  /** Fill a module and write it. */
  method WriteSymbolFile(identity: Identity, functions: seq<Function>, externs: seq<Extern>,
      es: seq<StackFrameEntry>, load: Address, data: SymbolData) returns (stream: string)
    ensures stream == Text(HeaderLines(identity, functions, externs, load, data)
                           + if data.NoCfi? then [] else CfiLines(es, load))
  {
    hide Text, CfiLines, HeaderLines;
    var dumped := new SymbolFile.Module(identity, functions, externs);
    dumped.SetLoadAddress(load);
    assert es[..0] == [];
    for i := 0 to |es|
      invariant dumped.loadAddress == load && dumped.stackFrameEntries == es[..i]
    {
      assert es[..i + 1] == es[..i] + [es[i]];
      dumped.AddStackFrameEntry(es[i]);
    }
    assert es[..|es|] == es;
    stream := dumped.Write(data);
  }

  /** Load a symbol file and find the rules at an address. */
  method FindInFile(stream: string, address: Address) returns (rules: CFIFrameInfo?)
    ensures Found(Loaded(EMPTY, stream + [NUL]).tables, address)
         == if rules == null then None else Some(rules.Contents())
  {
    hide Loaded, Found;
    var resolver := new SourceLineResolver.Module();
    resolver.LoadMapFromMemory(stream + [NUL]);
    rules := resolver.FindCFIFrameInfo(address);
  }

  /** The whole way: write a module, load what was written, and find the rules at x. */
  method FindThroughSymbolFile(identity: Identity, functions: seq<Function>, externs: seq<Extern>,
      es: seq<StackFrameEntry>, load: Address, data: SymbolData, x: Address) returns (rules: CFIFrameInfo?)
    requires IsWritable(identity, functions, externs, load) && AreLoadable(es) && !data.NoCfi?
    ensures rules != null <==> exists e <- es :: Covers(e, x) && !Across(e, load)
    ensures rules != null ==>
      forall e <- es, name :: Covers(e, x) && !Across(e, load) ==>
        Lookup(rules.Contents(), name) == RuleInForce(e, name, x)
  {
    assert forall e <- es :: HasWrittenMaps(e);
    WrittenIsFile(identity, functions, externs, load, data, es);
    hide Loaded, Found, Text, CfiLines, HeaderLines, IsSymbolFile, IsWritable, AreLoadable, Lookup, RuleInForce,
      Covers, Across;
    var stream := WriteSymbolFile(identity, functions, externs, es, load, data);
    rules := FindInFile(stream, WrapSub(x, load));
    TranslationKeepsMeaning(HeaderLines(identity, functions, externs, load, data) + CfiLines(es, load), es, load, x);
  }
}
