/**
 Sets of call frame rules, and their text in STACK CFI records: the parser of cfi_frame_info.cc as a
 function on tokens, and the grammar that it accepts.
 */
module CfiRules {
  import opened CText
  import opened OrderedKeys

  /** The `token_breaks` of the parser. */
  const RULE_BREAKS: set<char> := {' ', '\t', '\r', '\n'}

  /** The contents of a `CFIFrameInfo`; an empty string is a missing rule. */
  datatype Rules = Rules(cfa: string, ra: string, registers: map<string, string>)

  const NO_RULES := Rules("", "", map[])

  /** `Report`'s choice among the handler's functions. */
  function SetRule(rules: Rules, name: string, expression: string): Rules {
    if name == ".cfa" then rules.(cfa := expression)
    else if name == ".ra" then rules.(ra := expression)
    else rules.(registers := rules.registers[name := expression])
  }

  /** The rule for a name, if there is one. */
  function Lookup(rules: Rules, name: string): Option<string> {
    if name == ".cfa" then (if rules.cfa == "" then None else Some(rules.cfa))
    else if name == ".ra" then (if rules.ra == "" then None else Some(rules.ra))
    else if name in rules.registers then Some(rules.registers[name]) else None
  }

  // ----- the parser

  /** What a call of `Parse` returns, and the rules afterwards, which may have changed even if it failed. */
  datatype Parsed = Parsed(ok: bool, rules: Rules)

  function Report(name: string, expression: string, rules: Rules): Parsed {
    if name == "" || expression == "" then Parsed(false, rules)
    else Parsed(true, SetRule(rules, name, expression))
  }

  predicate IsName(token: string) { token != "" && token[|token| - 1] == ':' }

  function More(expression: string, token: string): string {
    if expression != "" then expression + [' '] + token else token
  }

  /** The parser's loop, with what it holds in `name_` and `expression_`, on the tokens still to come. */
  function ParseTokens(ts: seq<string>, name: string, expression: string, rules: Rules): Parsed {
    if ts == [] then Report(name, expression, rules)
    else if !IsName(ts[0]) then ParseTokens(ts[1..], name, More(expression, ts[0]), rules)
    else if |ts[0]| < 2 then Parsed(false, rules)
    else
      var reported := if name != "" || expression != "" then Report(name, expression, rules) else Parsed(true, rules);
      if !reported.ok then reported
      else ParseTokens(ts[1..], ts[0][..|ts[0]| - 1], "", reported.rules)
  }

  function RuleTokens(text: string): seq<string> { Tokens(CString(text), RULE_BREAKS) }

  function ParseRules(text: string, rules: Rules): Parsed { ParseTokens(RuleTokens(text), "", "", rules) }

  // ----- the grammar: a rule set is one or more rules; a rule is a name with a colon and one or more words

  datatype Rule = Rule(name: string, words: seq<string>)

  predicate IsWord(w: string) { IsToken(w, RULE_BREAKS) && !IsName(w) }

  predicate IsRule(r: Rule) {
    IsToken(r.name, RULE_BREAKS) && r.words != [] && forall w <- r.words :: IsWord(w)
  }

  predicate IsRuleSet(rs: seq<Rule>) { rs != [] && forall r <- rs :: IsRule(r) }

  function Flat(r: Rule): seq<string> { [r.name + [':']] + r.words }

  function FlatAll(rs: seq<Rule>): seq<string> {
    if rs == [] then [] else Flat(rs[0]) + FlatAll(rs[1..])
  }

  function Expression(r: Rule): string { Joined(r.words) }

  /** Put the rules of rs into force one after the other. */
  function Apply(rs: seq<Rule>, rules: Rules): Rules {
    if rs == [] then rules else Apply(rs[1..], SetRule(rules, rs[0].name, Expression(rs[0])))
  }

  lemma {:induction false} JoinedIsNotEmpty(ws: seq<string>)
    requires ws != [] && forall w <- ws :: w != ""
    ensures Joined(ws) != ""
  {
    assert ws[0] in ws;
  }

  lemma {:induction false} BeginningIsToken(t: string, n: nat, breaks: set<char>)
    requires IsToken(t, breaks) && 0 < n <= |t|
    ensures IsToken(t[..n], breaks)
  {
    assert forall c <- t[..n] :: c in t;
  }

  lemma {:induction false} MoreIsJoined(ws: seq<string>, w: string)
    requires forall w <- ws :: w != ""
    ensures More(Joined(ws), w) == Joined(ws + [w])
  {
    JoinedBoth(ws, [w]);
    if ws != [] {
      JoinedIsNotEmpty(ws);
    }
  }

  /** The parser goes from the name of one rule to that of the next. */
  lemma {:induction false} ParseNext(held: string, expression: string, name: string, ts: seq<string>, rules: Rules)
    requires held != "" && expression != "" && name != ""
    ensures ParseTokens([name + [':']] + ts, held, expression, rules)
         == ParseTokens(ts, name, "", SetRule(rules, held, expression))
  {
    hide SetRule;
    var all := [name + [':']] + ts;
    assert all[1..] == ts;
    assert all[0][..|all[0]| - 1] == name;
  }

  /** What the parser does with the words of a rule, of which it holds the first k, and with more rules. */
  lemma {:induction false} ParseWords(r: Rule, k: nat, ts: seq<string>, rules: Rules)
    requires IsRule(r) && k <= |r.words|
    ensures ParseTokens(r.words[k..] + ts, r.name, Joined(r.words[..k]), rules)
         == ParseTokens(ts, r.name, Expression(r), rules)
    decreases |r.words| - k
  {
    hide Report, SetRule, Joined, More, IsToken, IsName;
    if k < |r.words| {
      var all := r.words[k..] + ts;
      assert all[1..] == r.words[k + 1..] + ts;
      assert r.words[..k] + [r.words[k]] == r.words[..k + 1];
      assert IsWord(r.words[k]);
      WordsAreNotEmpty(r.words);
      assert forall w <- r.words[..k] :: w in r.words;
      MoreIsJoined(r.words[..k], r.words[k]);
      ParseWords(r, k + 1, ts, rules);
    } else {
      assert r.words[..k] == r.words && r.words[k..] + ts == ts;
    }
  }

  lemma {:induction false} WordsAreNotEmpty(ws: seq<string>)
    requires forall w <- ws :: IsWord(w)
    ensures forall w <- ws :: w != ""
  {
  }

  lemma {:induction false} ParseAllWords(r: Rule, ts: seq<string>, rules: Rules)
    requires IsRule(r)
    ensures ParseTokens(r.words + ts, r.name, "", rules) == ParseTokens(ts, r.name, Expression(r), rules)
    ensures Expression(r) != "" && r.name != ""
  {
    assert r.words[0..] == r.words && Joined(r.words[..0]) == "";
    hide ParseTokens, Joined;
    ParseWords(r, 0, ts, rules);
    WordsAreNotEmpty(r.words);
    JoinedIsNotEmpty(r.words);
  }

  lemma {:induction false} ParseEnd(name: string, expression: string, rules: Rules)
    requires name != "" && expression != ""
    ensures ParseTokens([], name, expression, rules) == Parsed(true, SetRule(rules, name, expression))
    ensures FlatAll([]) == []
  {
    hide SetRule;
  }

  lemma {:induction false} FlatFirst(rs: seq<Rule>)
    requires rs != []
    ensures FlatAll(rs) == [rs[0].name + [':']] + (rs[0].words + FlatAll(rs[1..]))
  {
  }

  lemma {:induction false} ApplyOne(r: Rule, rest: seq<Rule>, rules: Rules)
    ensures Apply([r] + rest, rules) == Apply(rest, SetRule(rules, r.name, Expression(r)))
    ensures Apply([], rules) == rules
    ensures rest == [] ==> Apply([r] + rest, rules) == SetRule(rules, r.name, Expression(r))
  {
    assert ([r] + rest)[1..] == rest;
  }

  lemma {:induction false} ParseFlat(r: Rule, rest: seq<Rule>, rules: Rules)
    requires IsRule(r) && forall x <- rest :: IsRule(x)
    ensures ParseTokens(r.words + FlatAll(rest), r.name, "", rules) == Parsed(true, Apply([r] + rest, rules))
    decreases |rest|
  {
    hide SetRule, Joined, ParseTokens, Apply, FlatAll;
    ParseAllWords(r, FlatAll(rest), rules);
    ApplyOne(r, rest, rules);
    var next := SetRule(rules, r.name, Expression(r));
    if rest == [] {
      ParseEnd(r.name, Expression(r), rules);
    } else {
      assert rest[0] in rest;
      FlatFirst(rest);
      ParseNext(r.name, Expression(r), rest[0].name, rest[0].words + FlatAll(rest[1..]), rules);
      ParseFlat(rest[0], rest[1..], next);
      assert [rest[0]] + rest[1..] == rest;
    }
  }

  /** Every rule set is accepted, and its rules are put into force. */
  lemma {:induction false} ParseRuleSet(rs: seq<Rule>, rules: Rules)
    requires IsRuleSet(rs)
    ensures ParseTokens(FlatAll(rs), "", "", rules) == Parsed(true, Apply(rs, rules))
  {
    var ts := FlatAll(rs);
    assert ts[1..] == rs[0].words + FlatAll(rs[1..]);
    assert ts[0][..|ts[0]| - 1] == rs[0].name;
    ParseFlat(rs[0], rs[1..], rules);
    assert [rs[0]] + rs[1..] == rs;
  }

  /** If the parser accepts, then what it holds and the tokens to come make up a rule set. */
  lemma {:induction false} FlatMore(r: Rule, rest: seq<Rule>)
    ensures FlatAll([r] + rest) == Flat(r) + FlatAll(rest) && FlatAll([]) == []
  {
    assert ([r] + rest)[1..] == rest;
  }

  lemma {:induction false} FirstMoves(head: seq<string>, ws: seq<string>, ts: seq<string>)
    requires ts != []
    ensures head + (ws + [ts[0]]) + ts[1..] == head + ws + ts
  {
    assert [ts[0]] + ts[1..] == ts;
  }

  lemma {:induction false} AcceptedRest(ts: seq<string>, name: string, ws: seq<string>,
      rules: Rules) returns (rs: seq<Rule>)
    requires IsToken(name, RULE_BREAKS) && (forall w <- ws :: IsWord(w)) && forall t <- ts :: IsToken(t, RULE_BREAKS)
    requires ParseTokens(ts, name, Joined(ws), rules).ok
    ensures IsRuleSet(rs) && FlatAll(rs) == [name + [':']] + ws + ts
  {
    assert Joined([]) == "";
    hide SetRule, Joined, More, FlatAll;
    var pending := Rule(name, ws);
    if ts == [] {
      PendingIsRule(name, ws);
      rs := [pending] + [];
      FlatMore(pending, []);
      assert [name + [':']] + ws + ts == Flat(pending) + [];
    } else if !IsName(ts[0]) {
      assert IsWord(ts[0]);
      WordsAreNotEmpty(ws);
      MoreIsJoined(ws, ts[0]);
      rs := AcceptedRest(ts[1..], name, ws + [ts[0]], rules);
      FirstMoves([name + [':']], ws, ts);
    } else {
      PendingIsRule(name, ws);
      var name' := ts[0][..|ts[0]| - 1];
      assert name' + [':'] == ts[0] && ts[0] in ts;
      BeginningIsToken(ts[0], |ts[0]| - 1, RULE_BREAKS);
      var rest := AcceptedRest(ts[1..], name', [], SetRule(rules, name, Joined(ws)));
      rs := [pending] + rest;
      FlatMore(pending, rest);
      assert [name' + [':']] + [] + ts[1..] == ts;
    }
  }

  lemma {:induction false} PendingIsRule(name: string, ws: seq<string>)
    requires IsToken(name, RULE_BREAKS) && (forall w <- ws :: IsWord(w)) && Joined(ws) != ""
    ensures IsRule(Rule(name, ws))
  {
  }

  lemma {:induction false} AcceptedTokens(ts: seq<string>, expression: string, rules: Rules) returns (rs: seq<Rule>)
    requires (forall t <- ts :: IsToken(t, RULE_BREAKS)) && ParseTokens(ts, "", expression, rules).ok
    ensures IsRuleSet(rs) && FlatAll(rs) == ts
  {
    assert ts[0] in ts;
    if !IsName(ts[0]) {
      rs := AcceptedTokens(ts[1..], More(expression, ts[0]), rules);
      NamelessIsRejected(ts[1..], More(expression, ts[0]), rules);
    } else {
      var name := ts[0][..|ts[0]| - 1];
      BeginningIsToken(ts[0], |ts[0]| - 1, RULE_BREAKS);
      rs := AcceptedRest(ts[1..], name, [], rules);
      assert name + [':'] == ts[0];
      assert [ts[0]] + [] + ts[1..] == ts;
    }
  }

  /** An expression without a name is never accepted. */
  lemma {:induction false} NamelessIsRejected(ts: seq<string>, expression: string, rules: Rules)
    requires expression != ""
    ensures !ParseTokens(ts, "", expression, rules).ok
  {
    if ts != [] && !IsName(ts[0]) {
      NamelessIsRejected(ts[1..], More(expression, ts[0]), rules);
    }
  }

  /**
   A text is accepted iff its tokens are a rule set, whatever the rules were before; and then just
   its rules are put into force, in their order.
   */
  lemma {:induction false} AcceptedIffRuleSet(text: string, rules: Rules)
    ensures ParseRules(text, rules).ok <==> exists rs :: IsRuleSet(rs) && FlatAll(rs) == RuleTokens(text)
    ensures forall rs | IsRuleSet(rs) && FlatAll(rs) == RuleTokens(text) ::
      ParseRules(text, rules).rules == Apply(rs, rules)
  {
    if ParseRules(text, rules).ok {
      var rs := AcceptedTokens(RuleTokens(text), "", rules);
    }
    forall rs | IsRuleSet(rs) && FlatAll(rs) == RuleTokens(text)
      ensures ParseRules(text, rules) == Parsed(true, Apply(rs, rules))
    {
      ParseRuleSet(rs, rules);
    }
  }
}
