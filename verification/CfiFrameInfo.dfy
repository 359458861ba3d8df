/**
 `CFIFrameInfo`, `CFIRuleParser` and its handler, from cfi_frame_info.h and cfi_frame_info.cc: the
 parser and the printer undo each other, and rule sets may be parsed in pieces.
 */
module CfiFrameInfos {
  import opened CText
  import opened CfiRules
  import opened CfiText
  import opened OrderedKeys
  import opened PostfixEvaluators

  /** The values of registers by name. */
  type Registers = map<string, nat>

  function RuleValue(rule: string, known: Registers, memory: Memory, m: Modulus): Option<nat> {
    Evaluated(rule, known, Some(memory), m)
  }

  predicate HaveValues(rules: map<string, string>, known: Registers, memory: Memory, m: Modulus) {
    forall n <- rules :: RuleValue(rules[n], known, memory, m).Some?
  }

  function ValuesOf(rules: map<string, string>, known: Registers, memory: Memory, m: Modulus): Registers
    requires HaveValues(rules, known, memory, m)
  {
    map n | n in rules :: RuleValue(rules[n], known, memory, m).value
  }

  function Added(values: Registers, name: string, value: nat): Registers { values[name := value] }

  /** Values have been found for just these names. */
  ghost predicate AreFound(found: Registers, names: seq<string>, rules: map<string, string>, known: Registers,
      memory: Memory, m: Modulus)
  {
    && (forall n :: n in found <==> n in names)
    && (forall n <- found :: n in rules && RuleValue(rules[n], known, memory, m) == Some(found[n]))
  }

  lemma {:induction false} OneMissing(rules: map<string, string>, name: string, known: Registers,
      memory: Memory, m: Modulus)
    requires name in rules && RuleValue(rules[name], known, memory, m).None?
    ensures !HaveValues(rules, known, memory, m)
  {
    hide RuleValue;
  }

  lemma {:induction false} FoundNone(rules: map<string, string>, known: Registers, memory: Memory, m: Modulus)
    ensures AreFound(map[], [], rules, known, memory, m)
  {
  }

  lemma {:induction false} FoundMore(found: Registers, order: seq<string>, i: nat, value: nat,
      rules: map<string, string>, known: Registers, memory: Memory, m: Modulus)
    requires i < |order| && AreFound(found, order[..i], rules, known, memory, m)
    requires order[i] in rules && RuleValue(rules[order[i]], known, memory, m) == Some(value)
    ensures AreFound(Added(found, order[i], value), order[..i + 1], rules, known, memory, m)
  {
    hide RuleValue;
    assert order[..i + 1] == order[..i] + [order[i]];
  }

  lemma {:induction false} FoundAll(found: Registers, order: seq<string>, rules: map<string, string>,
      known: Registers, memory: Memory, m: Modulus)
    requires AreFound(found, order, rules, known, memory, m) && forall n :: n in order <==> n in rules
    ensures HaveValues(rules, known, memory, m) && ValuesOf(rules, known, memory, m) == found
  {
    hide RuleValue;
    forall n | n in rules ensures RuleValue(rules[n], known, memory, m).Some? {
      assert n in found;
    }
  }

  function Known(registers: Registers, cfa: nat): Registers { registers[".cfa" := cfa] }

  function WithFrame(values: Registers, ra: nat, cfa: nat): Registers { values[".ra" := ra][".cfa" := cfa] }

  /**
   The caller's registers: the frame address first, then the return address and all others with the
   frame address known.  There must be rules for both, and every rule must have a value.
   */
  function CallerRegs(rules: Rules, registers: Registers, memory: Memory, m: Modulus): Option<Registers> {
    var cfa := RuleValue(rules.cfa, registers, memory, m);
    if rules.cfa == "" || rules.ra == "" || cfa.None? then None
    else
      var known := Known(registers, cfa.value);
      var ra := RuleValue(rules.ra, known, memory, m);
      if ra.None? || !HaveValues(rules.registers, known, memory, m) then None
      else Some(WithFrame(ValuesOf(rules.registers, known, memory, m), ra.value, cfa.value))
  }

  class CFIFrameInfo {
    var cfaRule: string
    var raRule: string
    var registerRules: map<string, string>

    ghost function Contents(): Rules
      reads this
    {
      Rules(cfaRule, raRule, registerRules)
    }

    constructor ()
      ensures Contents() == NO_RULES
    {
      cfaRule, raRule, registerRules := "", "", map[];
    }

    method SetCFARule(expression: string)
      modifies this
      ensures Contents() == old(Contents()).(cfa := expression)
    {
      cfaRule := expression;
    }

    method SetRARule(expression: string)
      modifies this
      ensures Contents() == old(Contents()).(ra := expression)
    {
      raRule := expression;
    }

    method SetRegisterRule(registerName: string, expression: string)
      modifies this
      ensures Contents() == old(Contents()).(registers := old(registerRules)[registerName := expression])
    {
      registerRules := registerRules[registerName := expression];
    }

    /** On failure, which is None, what the program has put into the caller's registers does not matter. */
    method FindCallerRegs(registers: Registers, memory: Memory, m: Modulus) returns (caller: Option<Registers>)
      ensures caller == CallerRegs(Contents(), registers, memory, m)
    {
      hide Evaluated, HaveValues, ValuesOf, WithFrame, Known;
      if cfaRule == "" || raRule == "" {
        return None;
      }
      var evaluator := new PostfixEvaluator(registers, Some(memory), m);
      var cfa := evaluator.EvaluateForValue(cfaRule);
      if cfa.None? {
        return None;
      }
      evaluator.dictionary := Known(registers, cfa.value);
      var ra := evaluator.EvaluateForValue(raRule);
      if ra.None? {
        return None;
      }
      var values := FindRegisters(evaluator, Known(registers, cfa.value));
      if values.None? {
        return None;
      }
      return Some(WithFrame(values.value, ra.value, cfa.value));
    }

    /** The loop of FindCallerRegs over the rules for registers. */
    method FindRegisters(evaluator: PostfixEvaluator, known: Registers) returns (values: Option<Registers>)
      requires evaluator.stack == [] && evaluator.memory.Some?
      modifies evaluator
      ensures var memory, m := evaluator.memory.value, evaluator.m;
        values == if HaveValues(registerRules, known, memory, m) then Some(ValuesOf(registerRules, known, memory, m))
                  else None
    {
      hide RuleValue, AreFound, ValuesOf, Added, HaveValues;
      assert AreFound(map[], [], registerRules, known, evaluator.memory.value, evaluator.m) by {
        FoundNone(registerRules, known, evaluator.memory.value, evaluator.m);
      }
      ghost var memory, m := evaluator.memory.value, evaluator.m;
      var order := IterateNames(registerRules);
      var found: Registers := map[];
      for i := 0 to |order|
        invariant evaluator.stack == [] && registerRules == old(registerRules)
        invariant AreFound(found, order[..i], registerRules, known, memory, m)
      {
        var name := order[i];
        assert name in order;
        var value := FindRegister(evaluator, known, registerRules[name]);
        if value.None? {
          OneMissing(registerRules, name, known, memory, m);
          return None;
        }
        FoundMore(found, order, i, value.value, registerRules, known, memory, m);
        found := Added(found, name, value.value);
      }
      assert order[..|order|] == order;
      FoundAll(found, order, registerRules, known, memory, m);
      return Some(found);
    }

    /** One round of that loop. */
    method FindRegister(evaluator: PostfixEvaluator, known: Registers, rule: string) returns (value: Option<nat>)
      requires evaluator.stack == [] && evaluator.memory.Some?
      modifies evaluator
      ensures evaluator.stack == [] && value == RuleValue(rule, known, evaluator.memory.value, evaluator.m)
    {
      hide Evaluated;
      evaluator.dictionary := known;
      value := evaluator.EvaluateForValue(rule);
    }

    method Serialize() returns (stream: string)
      ensures stream == Serialized(Contents())
    {
      stream := "";
      if cfaRule != "" {
        stream := stream + (".cfa" + [':'] + [' '] + cfaRule);
      }
      if raRule != "" {
        if stream != "" {
          stream := stream + [' '];
        }
        stream := stream + (".ra" + [':'] + [' '] + raRule);
      }
      ghost var start := stream;
      var order := IterateNames(registerRules);
      assert order[0..] == order;
      for i := 0 to |order|
        invariant AppendAll(start, order, registerRules) == AppendAll(stream, order[i..], registerRules)
      {
        var name := order[i];
        assert name in order;
        assert order[i..][1..] == order[i + 1..];
        if stream != "" {
          stream := stream + [' '];
        }
        stream := stream + (name + [':'] + [' '] + registerRules[name]);
      }
    }
  }

  /** The parser, with the handler that puts what it reports into frameInfo. */
  class CFIRuleParser {
    const frameInfo: CFIFrameInfo
    var name: string
    var expression: string

    constructor (frameInfo: CFIFrameInfo)
      ensures this.frameInfo == frameInfo
    {
      this.frameInfo := frameInfo;
      name, expression := "", "";
    }

    method Report() returns (ok: bool)
      modifies frameInfo
      ensures Parsed(ok, frameInfo.Contents()) == CfiRules.Report(name, expression, old(frameInfo.Contents()))
    {
      if name == "" || expression == "" {
        return false;
      }
      if name == ".cfa" {
        frameInfo.SetCFARule(expression);
      } else if name == ".ra" {
        frameInfo.SetRARule(expression);
      } else {
        frameInfo.SetRegisterRule(name, expression);
      }
      return true;
    }

    method Parse(ruleSet: string) returns (ok: bool)
      modifies this, frameInfo
      ensures Parsed(ok, frameInfo.Contents()) == ParseRules(ruleSet, old(frameInfo.Contents()))
    {
      hide IsName, More, SetRule, CfiRules.Report;
      name, expression := "", "";
      var token := Strtok(CString(ruleSet), RULE_BREAKS);
      while true
        invariant ParseTokens(Remaining(token, RULE_BREAKS), name, expression, frameInfo.Contents())
               == ParseRules(ruleSet, old(frameInfo.Contents()))
        invariant token.Some? ==> token.value.text != ""
        decreases Remaining(token, RULE_BREAKS)
      {
        if token.None? {
          ok := Report();
          return;
        }
        var text, cursor := token.value.text, token.value.cursor;
        assert Remaining(token, RULE_BREAKS)[1..] == Tokens(cursor, RULE_BREAKS);
        if IsName(text) {
          if |text| < 2 {
            return false;
          }
          if name != "" || expression != "" {
            var reported := Report();
            if !reported {
              return false;
            }
          }
          name, expression := text[..|text| - 1], "";
        } else {
          expression := More(expression, text);
        }
        token := Strtok(cursor, RULE_BREAKS);
      }
    }
  }

  // ----- printing and parsing

  function SpecialRules(r: Rules): seq<Rule> {
    (if r.cfa != "" then [RuleFor(".cfa", r.cfa)] else []) + (if r.ra != "" then [RuleFor(".ra", r.ra)] else [])
  }

  ghost function Listing(r: Rules): seq<Rule> {
    SpecialRules(r) + RulesOf(NamesInOrder(r.registers), r.registers)
  }

  /** The text that Serialize has written before it comes to the registers. */
  function SpecialText(r: Rules): string {
    var text := if r.cfa != "" then Append("", ".cfa", r.cfa) else "";
    if r.ra != "" then Append(text, ".ra", r.ra) else text
  }

  lemma {:induction false} SpecialTextIsClean(r: Rules)
    requires IsPrintable(r)
    ensures Clean(SpecialText(r), {NUL})
    ensures forall n <- NamesInOrder(r.registers) :: Clean(n, {NUL}) && Clean(r.registers[n], {NUL})
  {
    hide Tokens, Joined, IsToken;
  }

  lemma {:induction false} SerializedIsLine(r: Rules)
    requires IsPrintable(r)
    ensures AreRules(Listing(r)) && Serialized(r) == Line(Listing(r))
    ensures NUL !in Serialized(r)
  {
    assert Serialized(r) == AppendAll(SpecialText(r), NamesInOrder(r.registers), r.registers);
    hide IsExpression, IsRule, IsRuleName, Line, AppendAll, Append, Clean, SpecialText, Serialized;
    SpecialLine(r);
    SpecialTextIsClean(r);
    AppendAllIsLine(SpecialRules(r), NamesInOrder(r.registers), r.registers);
    AppendAllIsClean(SpecialText(r), NamesInOrder(r.registers), r.registers, {NUL});
    CleanOfNul(Serialized(r));
  }

  lemma {:induction false} CleanOfNul(s: string)
    requires Clean(s, {NUL})
    ensures NUL !in s
  {
  }

  lemma {:induction false} SpecialLine(r: Rules)
    requires IsPrintable(r)
    ensures AreRules(SpecialRules(r))
    ensures Line(SpecialRules(r)) == SpecialText(r)
  {
    hide IsExpression, IsRule, Append, RuleFor;
    var first := if r.cfa != "" then [RuleFor(".cfa", r.cfa)] else [];
    if r.cfa != "" {
      AppendIsLine([], ".cfa", r.cfa);
      assert [] + [RuleFor(".cfa", r.cfa)] == first;
    }
    if r.ra != "" {
      AppendIsLine(first, ".ra", r.ra);
    }
    assert first + [] == first;
  }

  lemma {:induction false} ApplyListing(r: Rules)
    requires IsPrintable(r)
    ensures Apply(Listing(r), NO_RULES) == r
  {
    hide IsExpression, Apply, Lookup, Separate, RulesOf, SpecialRules;
    var order := NamesInOrder(r.registers);
    ApplyBoth(SpecialRules(r), RulesOf(order, r.registers), NO_RULES);
    ApplySpecial(r);
    var result := Apply(RulesOf(order, r.registers), Rules(r.cfa, r.ra, map[]));
    forall n ensures Lookup(result, n) == Lookup(r, n) {
      ApplyRegisters(r, n);
    }
    ApplyRegisters(r, "");
    SameLookups(result, r);
  }

  lemma {:induction false} ApplyRegisters(r: Rules, n: string)
    requires IsPrintable(r)
    ensures var result := Apply(RulesOf(NamesInOrder(r.registers), r.registers), Rules(r.cfa, r.ra, map[]));
      Lookup(result, n) == Lookup(r, n) && Separate(result)
  {
    hide IsExpression, Apply, RulesOf;
    ApplyMap(NamesInOrder(r.registers), r.registers, Rules(r.cfa, r.ra, map[]), n);
  }

  lemma {:induction false} ApplySpecial(r: Rules)
    requires IsPrintable(r)
    ensures Apply(SpecialRules(r), NO_RULES) == Rules(r.cfa, r.ra, map[])
  {
    hide IsExpression;
    var first := if r.cfa != "" then [RuleFor(".cfa", r.cfa)] else [];
    var second := if r.ra != "" then [RuleFor(".ra", r.ra)] else [];
    if r.cfa != "" {
      ExpressionIsNotEmpty(r.cfa);
    }
    if r.ra != "" {
      ExpressionIsNotEmpty(r.ra);
    }
    ApplyBoth(first, second, NO_RULES);
  }

  lemma {:induction false} ListingIsEmpty(r: Rules)
    ensures Listing(r) == [] <==> r == NO_RULES
    ensures Line([]) == "" && Tokens("", RULE_BREAKS) == []
  {
    var order := NamesInOrder(r.registers);
    if n :| n in r.registers {
      assert n in r.registers.Keys && n in order;
    } else {
      assert r.registers == map[];
      assert order == [] by {
        assert forall n <- order :: n in r.registers.Keys;
      }
    }
  }

  /**
   Printable rules are read again as they were, unless there are none: then the text is empty, and
   the parser wants at least one rule.
   */
  lemma {:induction false} ParseUndoesSerialize(r: Rules)
    requires IsPrintable(r)
    ensures ParseRules(Serialized(r), NO_RULES) == Parsed(r != NO_RULES, r)
  {
    ListingIsEmpty(r);
    hide IsExpression, Apply, Line, RulesOf, Serialized, IsRule, Listing;
    SerializedIsLine(r);
    ApplyListing(r);
    if r != NO_RULES {
      ReadLine(Listing(r), NO_RULES);
    }
  }

  lemma {:induction false} SetIsPrintable(rules: Rules, name: string, e: string)
    requires IsPrintable(rules) && IsRuleName(name) && IsExpression(e)
    ensures IsPrintable(SetRule(rules, name, e)) && SetRule(rules, name, e) != NO_RULES
  {
    hide IsExpression;
    ExpressionIsNotEmpty(e);
    LookupAfterSet(rules, name, e, name);
  }

  /** What the parser has put together can be printed. */
  lemma {:induction false} AppliedIsPrintable(rs: seq<Rule>, rules: Rules)
    requires AreRules(rs) && IsPrintable(rules)
    requires forall r <- rs :: NUL !in r.name && forall w <- r.words :: NUL !in w
    ensures IsPrintable(Apply(rs, rules))
    ensures rs != [] || rules != NO_RULES ==> Apply(rs, rules) != NO_RULES
    decreases |rs|
  {
    hide IsExpression, IsPrintable, SetRule;
    if rs != [] {
      var r := rs[0];
      assert r in rs;
      JoinedIsExpression(r.words);
      SetIsPrintable(rules, r.name, Expression(r));
      AppliedIsPrintable(rs[1..], SetRule(rules, r.name, Expression(r)));
    }
  }

  lemma {:induction false} JoinedIsExpression(ws: seq<string>)
    requires ws != [] && forall w <- ws :: IsWord(w) && NUL !in w
    ensures IsExpression(Joined(ws))
  {
    TokensOfJoined(ws, RULE_BREAKS);
    CharsOfJoined(ws, NUL);
  }

  lemma {:induction false} CharsOfJoined(ws: seq<string>, c: char)
    requires c != ' ' && forall w <- ws :: c !in w
    ensures c !in Joined(ws)
  {
    if |ws| > 1 {
      CharsOfJoined(ws[1..], c);
      assert c !in ws[0];
    } else if |ws| == 1 {
      assert c !in ws[0];
    }
  }

  lemma {:induction false} TokensOfRules(rs: seq<Rule>)
    ensures forall r <- rs :: r.name + [':'] in FlatAll(rs) && forall w <- r.words :: w in FlatAll(rs)
  {
    if rs != [] {
      TokensOfRules(rs[1..]);
      forall r <- rs ensures r.name + [':'] in FlatAll(rs) && forall w <- r.words :: w in FlatAll(rs) {
        if r != rs[0] {
          assert r in rs[1..];
        } else {
          assert Flat(r)[0] == r.name + [':'];
          assert forall k :: 0 <= k < |r.words| ==> Flat(r)[k + 1] == r.words[k];
        }
      }
    }
  }

  /** The rules of an accepted text; they contain no NUL. */
  lemma {:induction false} RulesOfAccepted(text: string, rules: Rules) returns (rs: seq<Rule>)
    requires ParseRules(text, rules).ok
    ensures IsRuleSet(rs) && FlatAll(rs) == RuleTokens(text)
    ensures forall r <- rs :: NUL !in r.name && forall w <- r.words :: NUL !in w
  {
    hide ParseRules, FlatAll;
    AcceptedIffRuleSet(text, rules);
    rs :| IsRuleSet(rs) && FlatAll(rs) == RuleTokens(text);
    TokensOfRules(rs);
    forall r <- rs ensures NUL !in r.name && forall w <- r.words :: NUL !in w {
      assert NUL in r.name ==> NUL in r.name + [':'];
    }
  }

  /** Parser and printer undo each other: for every text that is accepted. */
  lemma {:induction false} SerializeUndoesParse(text: string)
    requires ParseRules(text, NO_RULES).ok
    ensures var r := ParseRules(text, NO_RULES).rules; ParseRules(Serialized(r), NO_RULES) == Parsed(true, r)
  {
    assert IsPrintable(NO_RULES);
    hide ParseRules, Serialized, Apply, IsRule, IsPrintable;
    var rs := RulesOfAccepted(text, NO_RULES);
    AcceptedIffRuleSet(text, NO_RULES);
    AppliedIsPrintable(rs, NO_RULES);
    ParseUndoesSerialize(Apply(rs, NO_RULES));
  }

  // ----- parsing in pieces

  lemma {:induction false} CStringOfBoth(a: string, b: string)
    ensures CString(a + b) == if NUL in a then CString(a) else a + CString(b)
  {
    if a == [] {
      assert a + b == b;
    } else if a[0] != NUL {
      assert (a + b)[1..] == a[1..] + b;
      CStringOfBoth(a[1..], b);
    }
  }

  lemma {:induction false} FlatIsRuleSet(a: seq<Rule>, b: seq<Rule>)
    requires IsRuleSet(a) && IsRuleSet(b)
    ensures IsRuleSet(a + b) && FlatAll(a + b) == FlatAll(a) + FlatAll(b)
  {
    FlatAllBoth(a, b);
  }

  lemma {:induction false} SameString(a: string, b: string, rules: Rules)
    requires CString(a) == CString(b)
    ensures ParseRules(a, rules) == ParseRules(b, rules)
  {
  }

  /**
   Parsing two accepted texts one after the other is parsing them as one text with a space between
   them, unless a NUL in the first text cuts off the second.
   */
  lemma {:induction false} ParseInPieces(first: string, second: string, rules: Rules)
    requires ParseRules(first, rules).ok && ParseRules(second, rules).ok
    ensures var whole := ParseRules(first + [' '] + second, rules);
      whole == if NUL in first then ParseRules(first, rules) else ParseRules(second, ParseRules(first, rules).rules)
  {
    hide CString, Tokens, ParseRules, FlatAll, Apply, IsRule;
    assert first + [' '] + second == first + ([' '] + second);
    CStringOfBoth(first, [' '] + second);
    if NUL in first {
      SameString(first, first + [' '] + second, rules);
    } else {
      CStringOfBoth([' '], second);
      assert first + ([' '] + CString(second)) == first + [' '] + CString(second);
      TokensOfBoth(first, ' ', CString(second), RULE_BREAKS);
      var rs := RulesOfAccepted(first, rules);
      var rs' := RulesOfAccepted(second, rules);
      FlatIsRuleSet(rs, rs');
      ApplyBoth(rs, rs', rules);
      AcceptedIffRuleSet(first, rules);
      AcceptedIffRuleSet(second, ParseRules(first, rules).rules);
      AcceptedIffRuleSet(first + [' '] + second, rules);
    }
  }

  /**
   Exactly when: the texts are read as one like one after the other if no NUL in the first cuts off the
   second, or if the second sets no rule to anything else than it is already.
   */
  lemma {:induction false} InPiecesExactly(first: string, second: string, rules: Rules)
    requires ParseRules(first, rules).ok && ParseRules(second, rules).ok
    ensures var before := ParseRules(first, rules).rules;
      ParseRules(first + [' '] + second, rules) == ParseRules(second, before)
      <==> NUL !in first || ParseRules(second, before).rules == before
  {
    hide ParseRules, Apply, FlatAll, Tokens;
    ParseInPieces(first, second, rules);
    AcceptedIffRuleSet(second, rules);
    AcceptedIffRuleSet(second, ParseRules(first, rules).rules);
  }

  lemma {:induction false} ReadOne(n: char, w: char, rules: Rules)
    requires {n, w} !! RULE_BREAKS + {':', NUL}
    ensures var text := [n, ':', ' ', w];
      NUL !in text && ParseRules(text, rules) == Parsed(true, SetRule(rules, [n], [w]))
  {
    var r := Rule([n], [[w]]);
    assert n in {n, w} && w in {n, w};
    LineOfOne(r);
    assert [n] + [':'] + [' '] + [w] == [n, ':', ' ', w];
    assert Apply([r], rules) == Apply([], SetRule(rules, [n], [w]));
    ReadLine([r], rules);
  }

  /** A text with a NUL in it, behind which the second text is lost. */
  lemma {:induction false} ParseInPiecesNeedsText()
    ensures var first, second := ['a', ':', ' ', 'b', NUL], ['c', ':', ' ', 'd'];
      && ParseRules(first, NO_RULES).ok && ParseRules(second, NO_RULES).ok
      && ParseRules(first + [' '] + second, NO_RULES) != ParseRules(second, ParseRules(first, NO_RULES).rules)
  {
    hide Tokens, ParseTokens, CString, ParseRules;
    var first, second := ['a', ':', ' ', 'b', NUL], ['c', ':', ' ', 'd'];
    assert first == ['a', ':', ' ', 'b'] + [NUL] && first[4] == NUL;
    CutAtNul(['a', ':', ' ', 'b'], NO_RULES);
    ReadOne('a', 'b', NO_RULES);
    ReadOne('c', 'd', NO_RULES);
    ReadOne('c', 'd', ParseRules(first, NO_RULES).rules);
    ParseInPieces(first, second, NO_RULES);
    var both := ParseRules(second, ParseRules(first, NO_RULES).rules).rules;
    assert ['c'] in both.registers && ['c'] !in ParseRules(first, NO_RULES).rules.registers;
  }

  lemma {:induction false} CutAtNul(text: string, rules: Rules)
    requires NUL !in text
    ensures ParseRules(text + [NUL], rules) == ParseRules(text, rules)
  {
    hide Tokens, ParseTokens;
    CStringOfBoth(text, [NUL]);
    assert text + [] == text;
  }
}
