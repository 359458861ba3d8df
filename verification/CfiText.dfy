/**
 Rule sets as text: what the printers of cfi_frame_info.cc and module.cc write, and what the parser
 makes of it again.
 */
module CfiText {
  import opened CText
  import opened CfiRules
  import opened OrderedKeys

  /** Add one rule to a line of rules. */
  function Append(text: string, name: string, expression: string): string {
    (if text != "" then text + [' '] else "") + (name + [':'] + [' '] + expression)
  }

  function AppendAll(text: string, order: seq<string>, m: map<string, string>): string
    requires forall n <- order :: n in m
    decreases |order|
  {
    if order == [] then text else AppendAll(Append(text, order[0], m[order[0]]), order[1..], m)
  }

  lemma {:induction false} AppendAllStep(text: string, order: seq<string>, m: map<string, string>)
    requires order != [] && forall n <- order :: n in m
    ensures AppendAll(text, order, m) == AppendAll(Append(text, order[0], m[order[0]]), order[1..], m)
    ensures Append(text, order[0], m[order[0]]) != ""
  {
  }

  lemma {:induction false} NothingToAppend(text: string, m: map<string, string>)
    ensures AppendAll(text, [], m) == text
  {
  }

  ghost function NamesInOrder(m: map<string, string>): (order: seq<string>)
    ensures Lists(order, m.Keys, TextAtMost)
  {
    TextOrder();
    InOrder(m.Keys, TextAtMost)
  }

  /** Iterate over a map of rules. */
  method IterateNames(m: map<string, string>) returns (order: seq<string>)
    ensures order == NamesInOrder(m)
  {
    TextOrder();
    order := Iterate(m.Keys, TextAtMost);
  }

  /** `CFIFrameInfo::Serialize`. */
  ghost function Serialized(r: Rules): string {
    var text := if r.cfa != "" then Append("", ".cfa", r.cfa) else "";
    var text' := if r.ra != "" then Append(text, ".ra", r.ra) else text;
    AppendAll(text', NamesInOrder(r.registers), r.registers)
  }

  // ----- what can be printed so that it can be read again

  /** One or more words with single spaces between them. */
  predicate IsExpression(e: string) {
    var ws := Tokens(e, RULE_BREAKS);
    ws != [] && e == Joined(ws) && NUL !in e && forall w <- ws :: !IsName(w)
  }

  predicate IsRuleName(n: string) { IsToken(n, RULE_BREAKS) && NUL !in n }

  predicate IsRuleMap(m: map<string, string>) {
    forall n <- m :: IsRuleName(n) && IsExpression(m[n])
  }

  /** The rules for the two special names are not among those for registers. */
  predicate Separate(r: Rules) { ".cfa" !in r.registers && ".ra" !in r.registers }

  predicate IsPrintable(r: Rules) {
    && (r.cfa == "" || IsExpression(r.cfa))
    && (r.ra == "" || IsExpression(r.ra))
    && IsRuleMap(r.registers)
    && Separate(r)
  }

  lemma {:induction false} SameLookups(a: Rules, b: Rules)
    requires Separate(a) && Separate(b) && forall n :: Lookup(a, n) == Lookup(b, n)
    ensures a == b
  {
    assert Lookup(a, ".cfa") == Lookup(b, ".cfa") && Lookup(a, ".ra") == Lookup(b, ".ra");
    forall n ensures n in a.registers <==> n in b.registers
      ensures n in a.registers ==> a.registers[n] == b.registers[n]
    {
      assert Lookup(a, n) == Lookup(b, n);
    }
    assert a.registers == b.registers;
  }

  // ----- printed rules are a rule set

  function RuleFor(name: string, e: string): Rule { Rule(name, Tokens(e, RULE_BREAKS)) }

  function RulesOf(order: seq<string>, m: map<string, string>): seq<Rule>
    requires forall n <- order :: n in m
  {
    if order == [] then [] else [RuleFor(order[0], m[order[0]])] + RulesOf(order[1..], m)
  }

  function Line(rs: seq<Rule>): string { Joined(FlatAll(rs)) }

  predicate AreRules(rs: seq<Rule>) { forall r <- rs :: IsRule(r) }

  lemma {:induction false} RuleForIsRule(name: string, e: string)
    requires IsRuleName(name) && IsExpression(e)
    ensures IsRule(RuleFor(name, e)) && Expression(RuleFor(name, e)) == e
  {
  }

  lemma {:induction false} FlatAllBoth(a: seq<Rule>, b: seq<Rule>)
    ensures FlatAll(a + b) == FlatAll(a) + FlatAll(b)
  {
    if a == [] {
      assert a + b == b;
    } else {
      assert (a + b)[1..] == a[1..] + b;
      FlatAllBoth(a[1..], b);
    }
  }

  lemma {:induction false} FlatIsTokens(rs: seq<Rule>)
    requires AreRules(rs)
    ensures forall t <- FlatAll(rs) :: IsToken(t, RULE_BREAKS)
    ensures FlatAll(rs) == [] <==> rs == []
  {
    if rs != [] {
      assert rs[0] in rs;
      FlatIsTokens(rs[1..]);
    }
  }

  lemma {:induction false} LineIsEmpty(rs: seq<Rule>)
    requires AreRules(rs)
    ensures Line(rs) == "" <==> rs == []
  {
    FlatIsTokens(rs);
    if rs != [] {
      JoinedIsNotEmpty(FlatAll(rs));
    }
  }

  lemma {:induction false} LineOfOne(r: Rule)
    requires IsRule(r)
    ensures Line([r]) == r.name + [':'] + [' '] + Expression(r)
  {
    assert FlatAll([r]) == Flat(r) + FlatAll([]) == Flat(r);
    assert Flat(r)[1..] == r.words;
  }

  lemma {:induction false} AppendIsLine(rs: seq<Rule>, name: string, e: string)
    requires AreRules(rs) && IsRuleName(name) && IsExpression(e)
    ensures AreRules(rs + [RuleFor(name, e)])
    ensures Append(Line(rs), name, e) == Line(rs + [RuleFor(name, e)])
  {
    var r := RuleFor(name, e);
    assert r.name == name;
    hide IsRuleName, IsExpression, IsRule, RuleFor, Expression;
    RuleForIsRule(name, e);
    LineOfOne(r);
    FlatAllBoth(rs, [r]);
    assert AreRules([r]);
    FlatIsTokens(rs);
    FlatIsTokens([r]);
    JoinedBoth(FlatAll(rs), FlatAll([r]));
    LineIsEmpty(rs);
  }

  lemma {:induction false} AppendAllIsLine(rs: seq<Rule>, order: seq<string>, m: map<string, string>)
    requires AreRules(rs) && forall n <- order :: n in m && IsRuleName(n) && IsExpression(m[n])
    ensures AreRules(rs + RulesOf(order, m))
    ensures AppendAll(Line(rs), order, m) == Line(rs + RulesOf(order, m))
    decreases |order|
  {
    hide Line, IsRuleName, IsExpression, IsRule, RuleFor;
    if order == [] {
      assert rs + RulesOf(order, m) == rs;
    } else {
      assert order[0] in order;
      AppendIsLine(rs, order[0], m[order[0]]);
      AppendAllIsLine(rs + [RuleFor(order[0], m[order[0]])], order[1..], m);
      assert rs + [RuleFor(order[0], m[order[0]])] + RulesOf(order[1..], m) == rs + RulesOf(order, m);
    }
  }

  /** A line of rules is read as those rules. */
  lemma {:induction false} ReadLine(rs: seq<Rule>, rules: Rules)
    requires IsRuleSet(rs) && NUL !in Line(rs)
    ensures ParseRules(Line(rs), rules) == Parsed(true, Apply(rs, rules))
  {
    FlatIsTokens(rs);
    TokensOfJoined(FlatAll(rs), RULE_BREAKS);
    ParseRuleSet(rs, rules);
  }

  predicate Clean(text: string, bad: set<char>) { forall c <- text :: c !in bad }

  /** Printing adds only colons and spaces to names and expressions. */
  lemma {:induction false} AppendAllIsClean(text: string, order: seq<string>, m: map<string, string>, bad: set<char>)
    requires forall n <- order :: n in m && Clean(n, bad) && Clean(m[n], bad)
    requires Clean(text, bad) && ' ' !in bad && ':' !in bad
    ensures Clean(AppendAll(text, order, m), bad)
    decreases |order|
  {
    if order != [] {
      assert order[0] in order;
      AppendAllIsClean(Append(text, order[0], m[order[0]]), order[1..], m, bad);
    }
  }

  // ----- putting printed rules into force

  lemma {:induction false} ApplyBoth(a: seq<Rule>, b: seq<Rule>, rules: Rules)
    ensures Apply(a + b, rules) == Apply(b, Apply(a, rules))
  {
    if a == [] {
      assert a + b == b;
    } else {
      assert (a + b)[1..] == a[1..] + b;
      ApplyBoth(a[1..], b, SetRule(rules, a[0].name, Expression(a[0])));
    }
  }

  lemma {:induction false} LookupAfterSet(rules: Rules, name: string, e: string, n: string)
    requires e != ""
    ensures Lookup(SetRule(rules, name, e), n) == if n == name then Some(e) else Lookup(rules, n)
    ensures Separate(rules) ==> Separate(SetRule(rules, name, e))
  {
  }

  lemma {:induction false} ExpressionIsNotEmpty(e: string)
    requires IsExpression(e)
    ensures e != "" && Joined(Tokens(e, RULE_BREAKS)) == e
  {
    JoinedIsNotEmpty(Tokens(e, RULE_BREAKS));
  }

  /** After a map of rules is put into force its rules hold for its names, and the others as before. */
  lemma {:induction false} ApplyMap(order: seq<string>, m: map<string, string>, rules: Rules, n: string)
    requires forall k <- order :: k in m && IsExpression(m[k])
    requires forall i, j :: 0 <= i < j < |order| ==> order[i] != order[j]
    ensures Lookup(Apply(RulesOf(order, m), rules), n) == if n in order then Some(m[n]) else Lookup(rules, n)
    ensures Separate(rules) ==> Separate(Apply(RulesOf(order, m), rules))
    decreases |order|
  {
    hide Lookup, SetRule, IsExpression, Separate;
    if order != [] {
      var k := order[0];
      ExpressionIsNotEmpty(m[k]);
      var next := SetRule(rules, k, m[k]);
      LookupAfterSet(rules, k, m[k], n);
      assert Apply(RulesOf(order, m), rules) == Apply(RulesOf(order[1..], m), next) by {
        assert RulesOf(order, m)[1..] == RulesOf(order[1..], m);
        assert RulesOf(order, m)[0] == RuleFor(k, m[k]);
      }
      ApplyMap(order[1..], m, next, n);
      assert n in order <==> n == k || n in order[1..];
    }
  }
}
