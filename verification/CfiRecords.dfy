/**
 The lines that module.cc writes for call frame information, as basic_source_line_resolver.cc reads
 them: each puts one rule map into the tables.
 */
module CfiRecords {
  import opened CText
  import opened CfiRules
  import opened CfiText
  import opened HexNumbers
  import opened OrderedKeys
  import opened RangeMaps
  import opened SourceLineResolver
  import opened SymbolFile
  import opened SymbolParsing
  import opened Words

  const TEXT_ENDS: set<char> := {'\r', '\n', NUL}

  predicate IsWrittenMap(m: RuleMap) { m != map[] && IsRuleMap(m) }

  /** A piece of a line: it holds no line break and no NUL. */
  predicate IsPiece(s: string) { s != "" && Clean(s, TEXT_ENDS) }

  // ----- rule maps

  lemma {:induction false} CharsOfCleanTokens(ts: seq<string>, bad: set<char>)
    requires ' ' !in bad && forall t <- ts :: Clean(t, bad)
    ensures Clean(Joined(ts), bad)
  {
    if |ts| > 1 {
      CharsOfCleanTokens(ts[1..], bad);
      assert Clean(ts[0], bad);
    }
  }

  lemma {:induction false} ExpressionIsClean(e: string)
    requires IsExpression(e)
    ensures Clean(e, TEXT_ENDS)
  {
    forall t <- Tokens(e, RULE_BREAKS) ensures Clean(t, {'\r', '\n'}) {
      assert IsToken(t, RULE_BREAKS);
    }
    CharsOfCleanTokens(Tokens(e, RULE_BREAKS), {'\r', '\n'});
  }

  /** The text of a rule map is a line of rules. */
  lemma {:induction false} MapText(m: RuleMap)
    requires IsWrittenMap(m)
    ensures IsRuleSet(RulesOf(NamesInOrder(m), m)) && RuleMapText(m) == Line(RulesOf(NamesInOrder(m), m))
    ensures IsPiece(RuleMapText(m))
  {
    hide IsExpression, IsRule, AppendAll, IsRuleName, Line, Clean;
    var order := NamesInOrder(m);
    var rs := RulesOf(order, m);
    NoRules();
    assert [] + rs == rs;
    AppendAllIsLine([], order, m);
    assert rs != [] by {
      if n :| n in m {
        assert n in m.Keys && n in order;
      }
    }
    LineIsEmpty(rs);
    MapTextIsClean(m);
  }

  lemma {:induction false} NoRules()
    ensures Line([]) == "" && AreRules([])
  {
  }

  lemma {:induction false} MapTextIsClean(m: RuleMap)
    requires IsWrittenMap(m)
    ensures Clean(RuleMapText(m), TEXT_ENDS)
  {
    hide IsExpression, AppendAll, IsRuleName;
    var order := NamesInOrder(m);
    forall n <- order ensures Clean(n, TEXT_ENDS) && Clean(m[n], TEXT_ENDS) {
      ExpressionIsClean(m[n]);
      NameIsClean(n);
    }
    AppendAllIsClean("", order, m, TEXT_ENDS);
  }

  lemma {:induction false} NameIsClean(n: string)
    requires IsRuleName(n)
    ensures Clean(n, TEXT_ENDS)
  {
  }

  /** Reading the text of a rule map puts its rules into force. */
  lemma {:induction false} ReadMapText(m: RuleMap, rules: Rules, n: string)
    requires IsWrittenMap(m)
    ensures var r := ParseRules(RuleMapText(m), rules);
      r.ok && Lookup(r.rules, n) == (if n in m then Some(m[n]) else Lookup(rules, n))
      && (Separate(rules) ==> Separate(r.rules))
  {
    hide IsExpression, IsRule, Line, Lookup, Separate, ParseRules, RuleMapText, Apply;
    MapText(m);
    ReadLine(RulesOf(NamesInOrder(m), m), rules);
    ApplyMap(NamesInOrder(m), m, rules, n);
  }

  // ----- fields

  lemma {:induction false} InitFields(base: string, size: string, rules: string)
    requires IsToken(base, FIELD_BREAKS) && IsToken(size, FIELD_BREAKS) && IsToken(rules, LINE_BREAKS)
    ensures Fields(InitText(base, size, rules)) == Init(base, size, rules)
  {
    hide Strtok;
    var behindSize := rules;
    var behindBase := size + [' '] + rules;
    var behindInit := base + [' '] + behindBase;
    assert InitText(base, size, rules) == INIT + [' '] + behindInit;
    StrtokOfTokenThenBreak(INIT, ' ', behindInit, FIELD_BREAKS);
    StrtokOfTokenThenBreak(base, ' ', behindBase, FIELD_BREAKS);
    StrtokOfTokenThenBreak(size, ' ', rules, FIELD_BREAKS);
    StrtokOfToken(rules, LINE_BREAKS);
  }

  lemma {:induction false} DeltaFields(address: string, rules: string)
    requires IsToken(address, FIELD_BREAKS) && IsToken(rules, LINE_BREAKS) && address != INIT
    ensures Fields(DeltaText(address, rules)) == Delta(address, rules)
  {
    hide Strtok;
    StrtokOfTokenThenBreak(address, ' ', rules, FIELD_BREAKS);
    StrtokOfToken(rules, LINE_BREAKS);
  }

  lemma {:induction false} EnterRecord(loader: Loader, text: string)
    requires Disjoint(loader.tables.initial)
    ensures var read := Enter(loader.tables, Fields(text));
      EnterLine(loader, RECORD + text) == LineRead(read.ok, loader.(tables := read.tables))
    ensures STACK <= RECORD + text
  {
    hide Enter, Fields, Disjoint;
    assert FILE[0] == 'F' && RECORD[0] == 'S';
    var line := RECORD + text;
    assert RECORD == STACK + ("CFI" + [' ']);
    assert line == STACK + ("CFI" + [' '] + text);
    assert line[|STACK|..] == "CFI" + [' '] + text;
    assert SkipSpace("CFI" + [' '] + text) == "CFI" + [' '] + text;
    WordThenBreak("CFI", ' ', text, FIELD_BREAKS);
    WordOfToken("CFI", FIELD_BREAKS);
    assert ("CFI" + [' '] + text)[4..] == text;
  }

  lemma {:induction false} HexIsField(n: nat)
    ensures IsToken(HexText(n), FIELD_BREAKS) && HexText(n) != INIT && Clean(HexText(n), TEXT_ENDS)
  {
    HexTextIsDigits(n);
    assert HexText(n)[0] in HexText(n);
    assert INIT[0] == 'I';
  }

  lemma {:induction false} PieceIsToken(s: string)
    requires IsPiece(s)
    ensures IsToken(s, LINE_BREAKS)
  {
  }

  // ----- lines

  lemma {:induction false} EnterInitLine(loader: Loader, e: StackFrameEntry, load: Address)
    requires Disjoint(loader.tables.initial) && IsWrittenMap(e.initialRules)
    ensures var ranges := loader.tables.initial;
      EnterLine(loader, InitLine(e, load)) == LineRead(true, loader.(tables := loader.tables.(
        initial := StoreInitial(ranges, WrapSub(e.address, load), e.size, RuleMapText(e.initialRules)))))
    ensures STACK <= InitLine(e, load)
  {
    hide InitText, HexText, RuleMapText, Fields, StoreInitial, EnterLine, StrToUL, Disjoint, IsRuleMap;
    var base, size, rules := HexText(WrapSub(e.address, load)), HexText(e.size), RuleMapText(e.initialRules);
    HexIsField(WrapSub(e.address, load));
    HexIsField(e.size);
    MapText(e.initialRules);
    PieceIsToken(rules);
    InitFields(base, size, rules);
    ReadHexText(WrapSub(e.address, load));
    ReadHexText(e.size);
    EnterRecord(loader, InitText(base, size, rules));
  }

  lemma {:induction false} EnterDeltaLine(loader: Loader, address: Address, rules: RuleMap, load: Address)
    requires Disjoint(loader.tables.initial) && IsWrittenMap(rules)
    ensures EnterLine(loader, DeltaLine(address, rules, load)) == LineRead(true, loader.(tables := loader.tables.(
      delta := loader.tables.delta[WrapSub(address, load) := RuleMapText(rules)])))
    ensures STACK <= DeltaLine(address, rules, load)
  {
    hide DeltaText, HexText, RuleMapText, Fields, EnterLine, StrToUL, Disjoint, IsRuleMap;
    var at, text := HexText(WrapSub(address, load)), RuleMapText(rules);
    HexIsField(WrapSub(address, load));
    MapText(rules);
    PieceIsToken(text);
    DeltaFields(at, text);
    ReadHexText(WrapSub(address, load));
    EnterRecord(loader, DeltaText(at, text));
  }

  lemma {:induction false} PiecesTogether(a: string, b: string)
    requires IsPiece(a) && IsPiece(b)
    ensures IsPiece(a + b)
  {
  }

  lemma {:induction false} RecordIsPiece(base: string, size: string, rules: string)
    requires IsPiece(base) && IsPiece(size) && IsPiece(rules)
    ensures IsPiece(RECORD + InitText(base, size, rules)) && IsPiece(RECORD + DeltaText(base, rules))
  {
    assert IsPiece(RECORD) && IsPiece(INIT) && IsPiece([' ']);
    hide IsPiece;
    PiecesTogether(INIT, [' ']);
    PiecesTogether(INIT + [' '], base);
    PiecesTogether(INIT + [' '] + base, [' ']);
    PiecesTogether(INIT + [' '] + base + [' '], size);
    PiecesTogether(INIT + [' '] + base + [' '] + size, [' ']);
    PiecesTogether(INIT + [' '] + base + [' '] + size + [' '], rules);
    PiecesTogether(base, [' ']);
    PiecesTogether(base + [' '], rules);
    PiecesTogether(RECORD, InitText(base, size, rules));
    PiecesTogether(RECORD, DeltaText(base, rules));
  }

  lemma {:induction false} LinesArePieces(e: StackFrameEntry, address: Address, rules: RuleMap, load: Address)
    ensures IsWrittenMap(e.initialRules) ==> IsPiece(InitLine(e, load))
    ensures IsWrittenMap(rules) ==> IsPiece(DeltaLine(address, rules, load))
  {
    hide HexText, RuleMapText, InitText, DeltaText, IsWrittenMap;
    HexIsField(WrapSub(e.address, load));
    HexIsField(e.size);
    HexIsField(WrapSub(address, load));
    if IsWrittenMap(e.initialRules) {
      MapText(e.initialRules);
      RecordIsPiece(HexText(WrapSub(e.address, load)), HexText(e.size), RuleMapText(e.initialRules));
    }
    if IsWrittenMap(rules) {
      MapText(rules);
      RecordIsPiece(HexText(WrapSub(address, load)), RuleMapText(rules), RuleMapText(rules));
    }
  }

  predicate ArePieces(lines: seq<string>) { forall line <- lines :: IsPiece(line) }

  /** A text is split into the lines it was made of. */
  lemma {:induction false} LinesOfText(lines: seq<string>)
    requires ArePieces(lines)
    ensures Tokens(Text(lines), LINE_BREAKS) == lines && NUL !in Text(lines)
  {
    if lines != [] {
      assert lines[0] in lines;
      PieceIsToken(lines[0]);
      StrtokOfTokenThenBreak(lines[0], LINE_END, Text(lines[1..]), LINE_BREAKS);
      LinesOfText(lines[1..]);
    }
  }
}
