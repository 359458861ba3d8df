/**
 From DWARF to the stack walker: call frame information is collected from a DWARF parser's calls,
 written to a symbol file, loaded from it and looked up.
 */
module DwarfToRules {
  import opened CText
  import opened CfiFrameInfos
  import opened CfiRecords
  import opened CfiRules
  import opened CfiText
  import opened CfiTranslation
  import opened DecimalNumbers
  import opened DwarfCfi
  import opened OrderedKeys
  import opened SourceLineResolver
  import opened SymbolFile
  import opened Words

  /** A frame description entry as the parser reports it: the arguments of `Entry`, and the calls that follow. */
  datatype Description = Description(address: Address, length: Address, returnAddress: nat, calls: seq<Call>)

  /** Registers without a name have the empty one. */
  predicate AreNames(names: seq<string>) {
    forall n <- names :: n == "" || (IsRuleName(n) && !IsName(n))
  }

  function ContextOf(names: seq<string>, d: Description): Context { Context(names, d.returnAddress) }

  function EntryOf(names: seq<string>, d: Description): StackFrameEntry {
    AfterAll(ContextOf(names, d), Start(ContextOf(names, d), d.address, d.length), d.calls)
  }

  predicate Within(d: Description, x: Address) { d.address <= x < d.address + d.length }

  /** The load address is inside the range, behind its first byte. */
  predicate Straddles(d: Description, load: Address) { d.address < load < d.address + d.length }

  /** Some rule is recorded for the start: the one for the return address, or one by a call. */
  predicate HasInitialRule(names: seq<string>, d: Description) {
    d.returnAddress < |names|
    || exists c <- d.calls :: c.address == d.address && IsExpressible(c)
  }

  predicate IsDescription(names: seq<string>, d: Description) {
    && d.address + d.length <= ADDRESS_SPACE
    && (d.returnAddress < |names| ==> names[d.returnAddress] != "")
    && HasInitialRule(names, d)
    && forall c <- d.calls :: Within(d, c.address)
  }

  predicate AreDescriptions(names: seq<string>, ds: seq<Description>) {
    && (forall d <- ds :: IsDescription(names, d))
    && (forall i, j :: 0 <= i < j < |ds| ==>
         ds[i].address + ds[i].length <= ds[j].address || ds[j].address + ds[j].length <= ds[i].address)
  }

  function EntriesOf(names: seq<string>, ds: seq<Description>): seq<StackFrameEntry> {
    seq(|ds|, i requires 0 <= i < |ds| => EntryOf(names, ds[i]))
  }

  // ----- what is recorded can be printed

  lemma {:induction false} DigitsAreWord(s: string)
    requires s != [] && forall c <- s :: '0' <= c <= '9' || c == '-'
    ensures IsWord(s) && NUL !in s
  {
    assert s[|s| - 1] in s;
  }

  lemma {:induction false} NumberIsWord(n: int)
    ensures IsWord(SignedText(n)) && NUL !in SignedText(n)
  {
    hide DecimalText;
    DigitsAreWord(SignedText(n));
  }

  lemma {:induction false} RegisterNameIsWord(names: seq<string>, d: Description, reg: Register)
    requires AreNames(names)
    ensures var n := RegisterName(ContextOf(names, d), reg); IsWord(n) && IsRuleName(n) && NUL !in n
  {
    hide DecimalText;
    var context := ContextOf(names, d);
    if 0 <= reg && reg != d.returnAddress && !(reg < |names| && names[reg] != "") {
      var digits := DecimalText(reg);
      assert UNNAMED[0] == 'u';
      assert digits[|digits| - 1] in digits;
      var n := UNNAMED + digits;
      assert n[|n| - 1] == digits[|digits| - 1];
    }
  }

  lemma {:induction false} RuleTextIsExpression(names: seq<string>, d: Description, call: Call)
    requires AreNames(names) && IsExpressible(call)
    ensures IsExpression(RuleText(ContextOf(names, d), call))
  {
    hide RegisterName, SignedText, IsExpression, Tokens;
    var words := RuleWords(ContextOf(names, d), call);
    forall w <- words ensures IsWord(w) && NUL !in w {
      match call
      case SameValueRule(_, reg) => RegisterNameIsWord(names, d, reg);
      case OffsetRule(_, _, base, offset) =>
        RegisterNameIsWord(names, d, base);
        NumberIsWord(offset);
      case ValOffsetRule(_, _, base, offset) =>
        RegisterNameIsWord(names, d, base);
        NumberIsWord(offset);
      case RegisterRule(_, _, base) => RegisterNameIsWord(names, d, base);
      case _ =>
    }
    JoinedIsExpression(words);
  }

  predicate MapsArePrintable(e: StackFrameEntry) {
    IsRuleMap(e.initialRules) && forall c <- e.ruleChanges :: IsWrittenMap(e.ruleChanges[c])
  }

  lemma {:induction false} RecordedIsPrintable(e: StackFrameEntry, address: Address, name: string, rule: string)
    requires MapsArePrintable(e) && IsRuleName(name) && IsExpression(rule)
    ensures MapsArePrintable(Recorded(e, address, name, rule))
  {
    hide IsRuleName, IsExpression;
    if address != e.address {
      var rules: RuleMap := if address in e.ruleChanges then e.ruleChanges[address] else map[];
      var more := rules[name := rule];
      assert name in more;
      assert IsWrittenMap(more);
    }
  }

  lemma {:induction false} AfterAllIsPrintable(names: seq<string>, d: Description, e: StackFrameEntry, calls: seq<Call>)
    requires AreNames(names) && MapsArePrintable(e)
    ensures MapsArePrintable(AfterAll(ContextOf(names, d), e, calls))
    decreases |calls|
  {
    hide AreNames, MapsArePrintable, RegisterName, RuleText, RuleWords, Recorded;
    if calls != [] {
      var call := calls[|calls| - 1];
      AfterAllIsPrintable(names, d, e, calls[..|calls| - 1]);
      RegisterNameIsWord(names, d, call.reg);
      if IsExpressible(call) {
        RuleTextIsExpression(names, d, call);
        RecordedIsPrintable(AfterAll(ContextOf(names, d), e, calls[..|calls| - 1]), call.address,
                            RegisterName(ContextOf(names, d), call.reg), RuleText(ContextOf(names, d), call));
      }
    }
  }

  lemma {:induction false} StartIsPrintable(names: seq<string>, d: Description)
    requires AreNames(names) && IsDescription(names, d)
    ensures MapsArePrintable(Start(ContextOf(names, d), d.address, d.length))
  {
    if d.returnAddress < |names| {
      var n := names[d.returnAddress];
      assert n in names;
      TokensOfToken(n, RULE_BREAKS);
      assert Joined([n]) == n;
      assert IsRuleName(RA_NAME);
    }
  }

  lemma {:induction false} InitialRulesAreWritten(names: seq<string>, d: Description)
    requires HasInitialRule(names, d)
    ensures EntryOf(names, d).initialRules != map[]
  {
    hide RegisterName, RuleText, AfterAll, RuleWords;
    var context := ContextOf(names, d);
    var start := Start(context, d.address, d.length);
    var name := if d.returnAddress < |names| then RA_NAME else
      var c :| c in d.calls && c.address == d.address && IsExpressible(c); RegisterName(context, c.reg);
    SlotAfterAll(context, start, d.calls, d.address, name);
    if k: nat :| k < |d.calls| && Records(context, d.calls[k], d.address, name) {
      LastRecordExists(context, d.calls, d.address, name, k);
    }
    assert Slot(EntryOf(names, d), d.address, name).Some?;
  }

  lemma {:induction false} EntryIsLoadable(names: seq<string>, d: Description)
    requires AreNames(names) && IsDescription(names, d)
    ensures IsLoadable(EntryOf(names, d))
    ensures EntryOf(names, d).address == d.address && EntryOf(names, d).size == d.length
  {
    hide AreNames, IsRuleMap, AfterAll, HasInitialRule;
    var context := ContextOf(names, d);
    var start := Start(context, d.address, d.length);
    var e := EntryOf(names, d);
    StartIsPrintable(names, d);
    AfterAllIsPrintable(names, d, start, d.calls);
    InitialRulesAreWritten(names, d);
    NoChangeAtStart(context, start, d.calls);
    forall c | c in e.ruleChanges ensures Covers(e, c) {
      ChangesAreWithin(names, d, c);
    }
  }

  lemma {:induction false} ChangesAreWithin(names: seq<string>, d: Description, c: Address)
    requires AreNames(names) && IsDescription(names, d) && c in EntryOf(names, d).ruleChanges
    ensures Within(d, c)
  {
    hide AreNames, AfterAll, HasInitialRule, Records, IsRuleMap;
    var context := ContextOf(names, d);
    var start := Start(context, d.address, d.length);
    StartIsPrintable(names, d);
    AfterAllIsPrintable(names, d, start, d.calls);
    NoChangeAtStart(context, start, d.calls);
    var rules := EntryOf(names, d).ruleChanges[c];
    assert IsWrittenMap(rules);
    var name :| name in rules;
    ChangeMeansRecord(context, start, d.calls, c, name);
    var j: nat :| j < |d.calls| && Records(context, d.calls[j], c, name);
    RecordAt(context, d.calls[j], c, name);
    assert d.calls[j] in d.calls;
  }

  lemma {:induction false} EntriesAreLoadable(names: seq<string>, ds: seq<Description>)
    requires AreNames(names) && AreDescriptions(names, ds)
    ensures AreLoadable(EntriesOf(names, ds))
  {
    hide AreNames, IsDescription, IsLoadable, EntryOf;
    var es := EntriesOf(names, ds);
    forall i | 0 <= i < |ds| ensures IsLoadable(es[i]) && es[i].address == ds[i].address && es[i].size == ds[i].length {
      assert ds[i] in ds;
      EntryIsLoadable(names, ds[i]);
    }
  }

  lemma {:induction false} EntryCovers(names: seq<string>, ds: seq<Description>, load: Address, k: nat, x: Address)
    requires AreNames(names) && AreDescriptions(names, ds) && k < |ds|
    ensures var es := EntriesOf(names, ds);
      && es[k] in es && es[k] == EntryOf(names, ds[k]) && (Covers(es[k], x) <==> Within(ds[k], x))
      && (Across(es[k], load) <==> Straddles(ds[k], load))
  {
    hide AreNames, IsDescription, IsLoadable, EntryOf;
    assert ds[k] in ds;
    EntryIsLoadable(names, ds[k]);
  }

  lemma {:induction false} SomeCovers(names: seq<string>, ds: seq<Description>, load: Address, x: Address)
    requires AreNames(names) && AreDescriptions(names, ds)
    ensures (exists e <- EntriesOf(names, ds) :: Covers(e, x) && !Across(e, load))
       <==> exists d <- ds :: Within(d, x) && !Straddles(d, load)
  {
    hide AreNames, AreDescriptions, EntryOf, Covers, Across, Within, Straddles;
    var es := EntriesOf(names, ds);
    if d :| d in ds && Within(d, x) && !Straddles(d, load) {
      var k :| 0 <= k < |ds| && ds[k] == d;
      EntryCovers(names, ds, load, k, x);
    }
    if e :| e in es && Covers(e, x) && !Across(e, load) {
      var k :| 0 <= k < |es| && es[k] == e;
      EntryCovers(names, ds, load, k, x);
      assert ds[k] in ds;
    }
  }

  /** The rules to be found at x by the description that covers it. */
  ghost predicate Follows(names: seq<string>, d: Description, x: Address, found: Option<Rules>) {
    && found.Some?
    && (forall name, i: nat :: IsInForce(ContextOf(names, d), d.calls, name, x, i) ==>
          Lookup(found.value, name) == Some(RuleText(ContextOf(names, d), d.calls[i])))
    && (forall name :: NoneRecorded(ContextOf(names, d), d.calls, name, x) ==>
          Lookup(found.value, name) == DefaultRule(ContextOf(names, d), name))
  }

  lemma {:induction false} EntryFollows(names: seq<string>, d: Description, x: Address, found: Option<Rules>)
    requires IsDescription(names, d) && Within(d, x) && found.Some?
    requires forall name :: Lookup(found.value, name) == RuleInForce(EntryOf(names, d), name, x)
    ensures Follows(names, d, x, found)
  {
    hide Lookup, RuleInForce, RuleText, NoneRecorded, IsLastRecord, HasInitialRule, AfterAll;
    forall name
      ensures forall i: nat :: IsInForce(ContextOf(names, d), d.calls, name, x, i) ==>
        Lookup(found.value, name) == Some(RuleText(ContextOf(names, d), d.calls[i]))
      ensures NoneRecorded(ContextOf(names, d), d.calls, name, x) ==> 
        Lookup(found.value, name) == DefaultRule(ContextOf(names, d), name)
    {
      LastRecordIsInForce(ContextOf(names, d), d.address, d.length, d.calls, name, x);
    }
  }

  /**
   For every address that a description covers and every name, the stack walker finds the rule that
   was recorded last at the greatest address up to there, and if none was, the rule that names the
   return address register.  It finds nothing where no description covers an address, nor where the
   one that does reaches across the load address.
   */
  lemma {:induction false} DwarfRulesAreFound(lines: seq<string>, names: seq<string>, ds: seq<Description>,
      load: Address, x: Address)
    requires AreNames(names) && AreDescriptions(names, ds) && IsSymbolFile(lines, EntriesOf(names, ds), load)
    ensures var found := Found(Loaded(EMPTY, Text(lines) + [NUL]).tables, WrapSub(x, load));
      && (found.Some? <==> exists d <- ds :: Within(d, x) && !Straddles(d, load))
      && (found.Some? ==> Separate(found.value))
      && (forall d <- ds :: Within(d, x) && !Straddles(d, load) ==> Follows(names, d, x, found))
  {
    hide AreNames, AreLoadable, IsDescription, Found, Loaded, Text, IsSymbolFile, Lookup, RuleInForce, Follows,
      Separate;
    hide Covers, Across, Within, Straddles, EntryOf;
    var es := EntriesOf(names, ds);
    EntriesAreLoadable(names, ds);
    SomeCovers(names, ds, load, x);
    var found := Found(Loaded(EMPTY, Text(lines) + [NUL]).tables, WrapSub(x, load));
    TranslationKeepsMeaning(lines, es, load, x);
    forall d | d in ds && Within(d, x) && !Straddles(d, load) ensures Follows(names, d, x, found) {
      var k :| 0 <= k < |ds| && ds[k] == d;
      EntryCovers(names, ds, load, k, x);
      EntryFollows(names, d, x, found);
    }
  }
}
