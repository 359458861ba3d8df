/**
 What the rules mean that come from DWARF: a stack walker that finds them and evaluates them recovers
 the registers of the caller as section 6.4.1 of the DWARF Debugging Information Format, version 4,
 defines them.
 */
module CallerRegisters {
  import opened CText
  import opened CfiFrameInfos
  import opened CfiRules
  import opened CfiText
  import opened CfiTranslation
  import opened DecimalNumbers
  import opened DwarfCfi
  import opened DwarfToRules
  import opened OrderedKeys
  import opened PostfixEvaluators
  import opened SourceLineResolver
  import opened SymbolFile
  import opened SymbolHeaders
  import opened Words

  /** Where a thread has stopped: the registers that are known by their names, and the memory of its stack. */
  datatype Thread = Thread(registers: Registers, memory: Memory, m: Modulus)

  /** A name that is neither a number nor an operator, nor begins like one. */
  predicate IsPlain(n: string) {
    && IsToken(n, SPACES) && n[0] != '=' && n[0] != '+' && n[0] != '-' && !('0' <= n[0] <= '9')
    && n != "*" && n != "/" && n != "%" && n != "@" && n != "^"
  }

  /** The registers known are some of those in the table, whose names are plain and not made up. */
  ghost predicate IsThread(names: seq<string>, t: Thread) {
    && AreNames(names)
    && (forall n <- names :: n == "" || (IsPlain(n) && n != CFA_NAME))
    && (forall n <- t.registers :: n in names && n != "" && n != CFA_NAME && n != RA_NAME && !(UNNAMED <= n))
    && AreValues(t.registers, t.memory, t.m)
  }

  // ----- rules as DWARF defines them

  function RegisterValue(names: seq<string>, t: Thread, cfa: Option<nat>, i: Register): Option<nat> {
    if i == CFA_REGISTER then cfa
    else if i < |names| && names[i] in t.registers then Some(t.registers[names[i]])
    else None
  }

  /** The register whose value in the stopped frame a rule refers to. */
  function Cited(call: Call): Register {
    match call
    case OffsetRule(_, _, base, _) => base
    case ValOffsetRule(_, _, base, _) => base
    case RegisterRule(_, _, base) => base
    case SameValueRule(_, reg) => reg
    case _ => call.reg
  }

  /** The value that a rule gives, if the registers and the memory that it needs are known. */
  function Recovered(names: seq<string>, t: Thread, cfa: Option<nat>, call: Call): Option<nat> {
    var v := RegisterValue(names, t, cfa, Cited(call));
    if v.None? then None
    else
      match call
      // the value is saved at the address
      case OffsetRule(_, _, _, offset) =>
        var at := Reduced(v.value + offset, t.m);
        if at in t.memory then Some(t.memory[at]) else None
      // the value is the address
      case ValOffsetRule(_, _, _, offset) => Some(Reduced(v.value + offset, t.m))
      // the value is in another register, or still in its own
      case RegisterRule(_, _, _) => v
      case SameValueRule(_, _) => v
      case _ => None
  }

  /** Offsets are numbers of the width of a register. */
  predicate OffsetFits(call: Call, m: Modulus) {
    call.OffsetRule? || call.ValOffsetRule? ==> call.offset < m && -(call.offset as int) < m
  }

  // ----- what the evaluator makes of their texts

  function WithCfa(t: Thread, cfa: Option<nat>): Registers {
    if cfa.Some? then Known(t.registers, cfa.value) else t.registers
  }

  lemma {:induction false} PlainIsVariable(n: string, m: Modulus)
    requires IsPlain(n)
    ensures IsVariable(n, m)
  {
    assert !IsNumeral(n) by {
      assert n[0] in n;
    }
  }

  lemma {:induction false} NameIsPlain(names: seq<string>, t: Thread, context: Context, i: Register)
    requires IsThread(names, t) && context.registerNames == names
    ensures IsPlain(RegisterName(context, i))
  {
    hide DecimalText, AreNames, AreValues;
    if 0 <= i && i != context.returnAddress && !(i < |names| && names[i] != "") {
      assert UNNAMED[0] == 'u';
    }
  }

  /** The dictionary has the value of each register under its name, but for the return address. */
  lemma {:induction false} NameHasValue(names: seq<string>, t: Thread, cfa: Option<nat>, context: Context, i: Register)
    requires IsThread(names, t) && context.registerNames == names
    ensures var name, dictionary := RegisterName(context, i), WithCfa(t, cfa);
      (if name in dictionary then Some(dictionary[name]) else None)
        == if i == context.returnAddress then None else RegisterValue(names, t, cfa, i)
  {
    hide DecimalText, AreNames, AreValues, IsPlain;
    var name := RegisterName(context, i);
    if i < 0 {
      assert CFA_NAME !in t.registers;
    } else if i == context.returnAddress {
      assert RA_NAME !in t.registers && RA_NAME != CFA_NAME;
    } else if i < |names| && names[i] != "" {
      assert names[i] in names;
    } else {
      assert UNNAMED <= name;
      assert UNNAMED[0] == 'u' && CFA_NAME[0] == '.';
    }
  }

  /** The words of a rule as a tree; an offset too long for a register is no number. */
  ghost function RuleTree(context: Context, call: Call, m: Modulus): Tree {
    var base := Variable(RegisterName(context, Cited(call)));
    match call
    case OffsetRule(_, _, _, offset) =>
      Load(Binary("+", base, if OffsetFits(call, m) then Constant(offset) else Variable(SignedText(offset))))
    case ValOffsetRule(_, _, _, offset) =>
      Binary("+", base, if OffsetFits(call, m) then Constant(offset) else Variable(SignedText(offset)))
    case _ => base
  }

  lemma {:induction false} LongOffsetIsNoNumber(n: int, m: Modulus)
    requires !(n < m && -n < m)
    ensures IsVariable(SignedText(n), m)
    ensures !IsPlain(SignedText(n))
  {
    hide DecimalText, DecimalValue, Literal, IsToken, IsBinary;
    var size := if n < 0 then -n else n;
    ReadDecimalText(size);
    assert IsNumeral(DecimalText(size));
    LongNumeral(DecimalText(size), m);
    NumeralIsToken(DecimalText(size));
  }

  lemma {:induction false} OffsetTree(name: string, offset: Tree, text: string, m: Modulus)
    requires IsVariable(name, m) && IsTree(offset, m) && Postfix(offset) == [text]
    ensures var sum := Binary("+", Variable(name), offset);
      && IsTree(sum, m) && Postfix(sum) == [name, text, "+"]
      && IsTree(Load(sum), m) && Postfix(Load(sum)) == [name, text, "+", "^"]
  {
    hide IsVariable;
    var sum := Binary("+", Variable(name), offset);
    assert Postfix(sum) == [name] + [text] + ["+"];
    assert Postfix(Load(sum)) == [name, text, "+"] + ["^"];
  }

  lemma {:induction false} TreeOfRule(names: seq<string>, t: Thread, context: Context, call: Call)
    requires IsThread(names, t) && context.registerNames == names && IsExpressible(call)
    ensures IsTree(RuleTree(context, call, t.m), t.m)
    ensures Postfix(RuleTree(context, call, t.m)) == RuleWords(context, call)
  {
    hide RegisterName, IsThread, IsPlain, SignedText, IsVariable;
    var name := RegisterName(context, Cited(call));
    NameIsPlain(names, t, context, Cited(call));
    PlainIsVariable(name, t.m);
    if call.OffsetRule? || call.ValOffsetRule? {
      var offset := if OffsetFits(call, t.m) then Constant(call.offset) else Variable(SignedText(call.offset));
      if !OffsetFits(call, t.m) {
        LongOffsetIsNoNumber(call.offset, t.m);
      }
      OffsetTree(name, offset, SignedText(call.offset), t.m);
    }
  }

  lemma {:induction false} ThreadHasValues(names: seq<string>, t: Thread, cfa: Option<nat>)
    requires IsThread(names, t) && (cfa.Some? ==> cfa.value < t.m)
    ensures AreValues(WithCfa(t, cfa), t.memory, t.m)
  {
    hide AreNames, IsPlain;
  }

  lemma {:induction false} NumberIsUnknown(names: seq<string>, t: Thread, cfa: Option<nat>, n: int)
    requires IsThread(names, t)
    ensures SignedText(n) !in WithCfa(t, cfa)
  {
    hide AreNames, AreValues;
    FirstDigit(if n < 0 then -n else n);
    assert CFA_NAME[0] == '.';
  }

  lemma {:induction false} ReducedSum(v: nat, n: int, m: Modulus)
    requires v < m && n < m && -n < m
    ensures Reduced(v + Reduced(n, m), m) == Reduced(v + n, m)
  {
  }

  /** The value of the sum of a name and an offset. */
  lemma {:induction false} SumMeans(name: string, n: int, text: string, fits: bool, dictionary: Dictionary,
      memory: Memory, m: Modulus)
    requires IsVariable(name, m) && (if fits then n < m && -n < m else IsVariable(text, m) && text !in dictionary)
    requires name in dictionary ==> dictionary[name] < m
    ensures var sum := Binary("+", Variable(name), if fits then Constant(n) else Variable(text));
      TreeValue(sum, dictionary, memory, m)
        == if fits && name in dictionary then Some(Reduced(dictionary[name] + n, m)) else None
  {
    hide IsVariable, Reduced;
    if fits && name in dictionary {
      ReducedSum(dictionary[name], n, m);
    }
  }

  /** The value of the tree of a rule, when its register has a value v or none. */
  lemma {:induction false} TreeMeans(names: seq<string>, t: Thread, cfa: Option<nat>, context: Context, call: Call)
    requires IsThread(names, t) && (cfa.Some? ==> cfa.value < t.m)
    requires context.registerNames == names && IsExpressible(call)
    requires IsTree(RuleTree(context, call, t.m), t.m)
    ensures TreeValue(RuleTree(context, call, t.m), WithCfa(t, cfa), t.memory, t.m)
         == if Cited(call) == context.returnAddress || !OffsetFits(call, t.m) then None
            else Recovered(names, t, cfa, call)
  {
    hide RegisterName, IsThread, SignedText, RegisterValue, WithCfa, IsPlain, IsVariable, Reduced;
    var name, dictionary := RegisterName(context, Cited(call)), WithCfa(t, cfa);
    NameIsPlain(names, t, context, Cited(call));
    PlainIsVariable(name, t.m);
    NameHasValue(names, t, cfa, context, Cited(call));
    ThreadHasValues(names, t, cfa);
    if call.OffsetRule? || call.ValOffsetRule? {
      var fits := OffsetFits(call, t.m);
      if !fits {
        LongOffsetIsNoNumber(call.offset, t.m);
        NumberIsUnknown(names, t, cfa, call.offset);
      }
      SumMeans(name, call.offset, SignedText(call.offset), fits, dictionary, t.memory, t.m);
    }
  }

  /**
   For every rule: its text has just the value that DWARF gives the rule, unless the rule cites the
   return address column, whose name has no value, or its offset is too long for a register.
   */
  lemma {:induction false} RuleIsMeant(names: seq<string>, t: Thread, cfa: Option<nat>, context: Context, call: Call)
    requires IsThread(names, t) && (cfa.Some? ==> cfa.value < t.m)
    requires context.registerNames == names && IsExpressible(call)
    ensures RuleValue(RuleText(context, call), WithCfa(t, cfa), t.memory, t.m)
         == if Cited(call) == context.returnAddress || !OffsetFits(call, t.m) then None
            else Recovered(names, t, cfa, call)
  {
    hide RegisterName, IsThread, SignedText, IsTree, Evaluated, WithCfa, RuleTree, RuleWords, Recovered, TreeValue,
      Joined;
    TreeOfRule(names, t, context, call);
    ThreadHasValues(names, t, cfa);
    EvaluatesTree(RuleTree(context, call, t.m), WithCfa(t, cfa), t.memory, t.m);
    TreeMeans(names, t, cfa, context, call);
  }

  // ----- the whole way

  /** Some rule is in force at x for a name: one from a call, or the one for the return address. */
  ghost predicate HasRule(names: seq<string>, d: Description, name: string, x: Address) {
    || (exists i: nat :: IsInForce(ContextOf(names, d), d.calls, name, x, i))
    || (name == RA_NAME && d.returnAddress < |names|)
  }

  /** What the rule for a name gives that is in force at x. */
  ghost function Given(names: seq<string>, d: Description, name: string, x: Address, t: Thread,
      cfa: Option<nat>): Option<nat>
  {
    if i: nat :| IsInForce(ContextOf(names, d), d.calls, name, x, i) then
      var call := d.calls[i];
      if Cited(call) == d.returnAddress || !OffsetFits(call, t.m) then None else Recovered(names, t, cfa, call)
    else RegisterValue(names, t, cfa, d.returnAddress)
  }

  /** The rules that were found give just that. */
  lemma {:induction false} FoundGives(names: seq<string>, d: Description, name: string, x: Address, t: Thread,
      cfa: Option<nat>, found: Rules)
    requires IsThread(names, t) && IsDescription(names, d) && Within(d, x) && (cfa.Some? ==> cfa.value < t.m)
    requires Follows(names, d, x, Some(found))
    ensures Lookup(found, name).Some? <==> HasRule(names, d, name, x)
    ensures HasRule(names, d, name, x) ==>
      RuleValue(Lookup(found, name).value, WithCfa(t, cfa), t.memory, t.m) == Given(names, d, name, x, t, cfa)
  {
    hide IsThread, Lookup, RuleText, NoneRecorded, IsLastRecord, Records, Within, HasInitialRule, AfterAll,
      RuleValue, WithCfa, Recovered, RegisterValue, Cited, OffsetFits;
    var context := ContextOf(names, d);
    DescriptionIsInOrder(names, d, x);
    LastRecordIsInForce(context, d.address, d.length, d.calls, name, x);
    if i: nat :| IsInForce(context, d.calls, name, x, i) {
      forall i: nat | IsInForce(context, d.calls, name, x, i)
        ensures RuleValue(RuleText(context, d.calls[i]), WithCfa(t, cfa), t.memory, t.m)
             == if Cited(d.calls[i]) == d.returnAddress || !OffsetFits(d.calls[i], t.m) then None
                else Recovered(names, t, cfa, d.calls[i])
      {
        InForceIsExpressible(context, d.calls, name, x, i);
        RuleIsMeant(names, t, cfa, context, d.calls[i]);
      }
    } else if name == RA_NAME && d.returnAddress < |names| {
      DefaultGives(names, d, t, cfa);
    }
  }

  lemma {:induction false} DescriptionIsInOrder(names: seq<string>, d: Description, x: Address)
    requires IsDescription(names, d) && Within(d, x)
    ensures d.address <= x && forall c <- d.calls :: d.address <= c.address
  {
  }

  lemma {:induction false} InForceIsExpressible(context: Context, calls: seq<Call>, name: string, x: Address, i: nat)
    requires IsInForce(context, calls, name, x, i)
    ensures i < |calls| && IsExpressible(calls[i])
  {
  }

  /** The rule from the start names the return address register itself. */
  lemma {:induction false} DefaultGives(names: seq<string>, d: Description, t: Thread, cfa: Option<nat>)
    requires IsThread(names, t) && IsDescription(names, d) && (cfa.Some? ==> cfa.value < t.m)
    requires d.returnAddress < |names|
    ensures RuleValue(names[d.returnAddress], WithCfa(t, cfa), t.memory, t.m)
         == RegisterValue(names, t, cfa, d.returnAddress)
  {
    hide IsPlain, IsVariable, AreNames, AreValues, Evaluated, HasInitialRule;
    var n := names[d.returnAddress];
    assert n in names;
    PlainIsVariable(n, t.m);
    ThreadHasValues(names, t, cfa);
    EvaluatesTree(Variable(n), WithCfa(t, cfa), t.memory, t.m);
    assert Joined([n]) == n;
  }

  /** The registers recovered, in terms of the calls for a description. */
  ghost predicate IsRecovered(names: seq<string>, d: Description, x: Address, t: Thread, caller: Option<Registers>) {
    var cfa := if HasRule(names, d, CFA_NAME, x) then Given(names, d, CFA_NAME, x, t, None) else None;
    && (caller.Some? <==>
          && cfa.Some? && HasRule(names, d, RA_NAME, x)
          && forall name :: name != CFA_NAME && HasRule(names, d, name, x) ==> Given(names, d, name, x, t, cfa).Some?)
    && (caller.Some? ==>
          && CFA_NAME in caller.value && Some(caller.value[CFA_NAME]) == cfa
          && forall name :: name != CFA_NAME ==>
               && (name in caller.value <==> HasRule(names, d, name, x))
               && (name in caller.value ==> Some(caller.value[name]) == Given(names, d, name, x, t, cfa)))
  }

  lemma {:induction false} GivenFits(names: seq<string>, d: Description, name: string, x: Address, t: Thread,
      cfa: Option<nat>)
    requires IsThread(names, t) && (cfa.Some? ==> cfa.value < t.m)
    ensures var v := Given(names, d, name, x, t, cfa); v.Some? ==> v.value < t.m
  {
    hide AreNames, IsPlain, IsInForce, Reduced;
  }

  /** The caller's registers name by name. */
  lemma {:induction false} CallerByName(found: Rules, t: Thread, cfa: nat)
    requires Separate(found) && found.cfa != "" && RuleValue(found.cfa, t.registers, t.memory, t.m) == Some(cfa)
    ensures var caller, known := CallerRegs(found, t.registers, t.memory, t.m), WithCfa(t, Some(cfa));
      && (caller.Some? <==>
            && Lookup(found, RA_NAME).Some?
            && forall name :: name != CFA_NAME && Lookup(found, name).Some? ==>
                 RuleValue(Lookup(found, name).value, known, t.memory, t.m).Some?)
      && (caller.Some? ==>
            && CFA_NAME in caller.value && caller.value[CFA_NAME] == cfa
            && forall name :: name != CFA_NAME ==>
                 && (name in caller.value <==> Lookup(found, name).Some?)
                 && (name in caller.value ==>
                       Some(caller.value[name]) == RuleValue(Lookup(found, name).value, known, t.memory, t.m)))
  {
    hide RuleValue, Known;
    var known := WithCfa(t, Some(cfa));
    forall n | n in found.registers
      ensures Lookup(found, n) == Some(found.registers[n]) && n != CFA_NAME && n != RA_NAME
    {
    }
    if found.ra != "" {
      assert Lookup(found, RA_NAME) == Some(found.ra);
    }
  }

  lemma {:induction false} RulesRecover(names: seq<string>, d: Description, x: Address, t: Thread, found: Rules)
    requires IsThread(names, t) && IsDescription(names, d) && Within(d, x)
    requires Follows(names, d, x, Some(found)) && Separate(found)
    ensures IsRecovered(names, d, x, t, CallerRegs(found, t.registers, t.memory, t.m))
  {
    hide IsThread, IsDescription, Follows, Within, RuleValue, HasRule, Given;
    FoundGives(names, d, CFA_NAME, x, t, None, found);
    var cfa := RuleValue(found.cfa, t.registers, t.memory, t.m);
    if found.cfa != "" && cfa.Some? {
      GivenFits(names, d, CFA_NAME, x, t, None);
      forall name
        ensures Lookup(found, name).Some? <==> HasRule(names, d, name, x)
        ensures HasRule(names, d, name, x) ==>
          RuleValue(Lookup(found, name).value, WithCfa(t, cfa), t.memory, t.m) == Given(names, d, name, x, t, cfa)
      {
        FoundGives(names, d, name, x, t, cfa, found);
      }
      CallerByName(found, t, cfa.value);
    }
  }

  /**
   From DWARF to the caller's registers: where a description covers the address at which a thread has
   stopped and does not reach across the load address, walking recovers just the registers with a rule
   in force there, each with the value that DWARF defines, and fails only if one has none.
   */
  lemma {:induction false} CallerIsRecovered(lines: seq<string>, names: seq<string>, ds: seq<Description>,
      load: Address, x: Address, d: Description, t: Thread)
    requires IsThread(names, t) && AreDescriptions(names, ds) && IsSymbolFile(lines, EntriesOf(names, ds), load)
    requires d in ds && Within(d, x) && !Straddles(d, load)
    ensures var found := Found(Loaded(EMPTY, Text(lines) + [NUL]).tables, WrapSub(x, load));
      found.Some? && IsRecovered(names, d, x, t, CallerRegs(found.value, t.registers, t.memory, t.m))
  {
    hide IsDescription, Found, Loaded, Text, IsSymbolFile, EntriesOf, CallerRegs, IsRecovered, AreNames, IsPlain,
      AreValues, Separate, Follows, Within, Straddles;
    DwarfRulesAreFound(lines, names, ds, load, x);
    var found := Found(Loaded(EMPTY, Text(lines) + [NUL]).tables, WrapSub(x, load));
    assert found == Some(found.value);
    RulesRecover(names, d, x, t, found.value);
  }

  /** Take the calls for some descriptions. */
  method Dump(symbols: SymbolFile.Module, names: seq<string>, ds: seq<Description>)
    requires symbols.stackFrameEntries == []
    modifies symbols`stackFrameEntries
    ensures symbols.stackFrameEntries == EntriesOf(names, ds)
  {
    var handler := new DwarfCFIToModule(symbols, names);
    for i := 0 to |ds|
      invariant handler.entry == None
      invariant symbols.stackFrameEntries == EntriesOf(names, ds[..i])
    {
      var ok := handler.Entry(ds[i].address, ds[i].length, ds[i].returnAddress);
      ReportAll(handler, names, ds[i]);
      ok := handler.End();
      assert EntriesOf(names, ds[..i + 1]) == EntriesOf(names, ds[..i]) + [EntryOf(names, ds[i])];
    }
    assert ds[..|ds|] == ds;
  }

  method ReportAll(handler: DwarfCFIToModule, names: seq<string>, d: Description)
    requires handler.Current() == ContextOf(names, d)
    requires handler.entry == Some(Start(ContextOf(names, d), d.address, d.length))
    modifies handler`entry
    ensures handler.entry == Some(EntryOf(names, d))
  {
    hide After, Start;
    for k := 0 to |d.calls|
      invariant handler.entry
             == Some(AfterAll(ContextOf(names, d), Start(ContextOf(names, d), d.address, d.length), d.calls[..k]))
    {
      assert d.calls[..k + 1][..k] == d.calls[..k];
      var ok := handler.Report(d.calls[k]);
    }
    assert d.calls[..|d.calls|] == d.calls;
  }

  /** The first half: dump the descriptions and write the module. */
  method WriteDump(identity: Identity, functions: seq<Function>, externs: seq<Extern>, names: seq<string>,
      ds: seq<Description>, load: Address, data: SymbolData) returns (stream: string)
    requires !data.NoCfi?
    ensures stream == Text(HeaderLines(identity, functions, externs, load, data) + CfiLines(EntriesOf(names, ds), load))
  {
    hide Text, HeaderLines, CfiLines, EntriesOf;
    var symbols := new SymbolFile.Module(identity, functions, externs);
    Dump(symbols, names, ds);
    symbols.SetLoadAddress(load);
    stream := symbols.Write(data);
  }

  /** All of it, one after the other: dump, write, load, find and walk. */
  method WalkThroughSymbolFile(identity: Identity, functions: seq<Function>, externs: seq<Extern>,
      names: seq<string>, ds: seq<Description>, load: Address, data: SymbolData, x: Address, t: Thread)
    returns (caller: Option<Registers>)
    requires IsWritable(identity, functions, externs, load) && !data.NoCfi?
    requires IsThread(names, t) && AreDescriptions(names, ds)
    ensures forall d <- ds :: Within(d, x) && !Straddles(d, load) ==> IsRecovered(names, d, x, t, caller)
    ensures (forall d <- ds :: !(Within(d, x) && !Straddles(d, load))) ==> caller == None
  {
    hide IsDescription, Found, Loaded, Text, CfiLines, HeaderLines, IsSymbolFile, IsWritable, EntriesOf, CallerRegs,
      IsRecovered, AreNames, IsPlain, AreValues, Separate, Follows, Within, Straddles;
    var stream := WriteDump(identity, functions, externs, names, ds, load, data);
    ghost var lines := HeaderLines(identity, functions, externs, load, data) + CfiLines(EntriesOf(names, ds), load);
    DumpIsFile(identity, functions, externs, names, ds, load, data);
    DwarfRulesAreFound(lines, names, ds, load, x);
    var rules := FindInFile(stream, WrapSub(x, load));
    if rules == null {
      return None;
    }
    caller := rules.FindCallerRegs(t.registers, t.memory, t.m);
    forall d | d in ds && Within(d, x) && !Straddles(d, load) ensures IsRecovered(names, d, x, t, caller) {
      CallerIsRecovered(lines, names, ds, load, x, d, t);
    }
  }

  lemma {:induction false} DumpIsFile(identity: Identity, functions: seq<Function>, externs: seq<Extern>,
      names: seq<string>, ds: seq<Description>, load: Address, data: SymbolData)
    requires IsWritable(identity, functions, externs, load) && AreNames(names) && AreDescriptions(names, ds)
    ensures var es := EntriesOf(names, ds);
      IsSymbolFile(HeaderLines(identity, functions, externs, load, data) + CfiLines(es, load), es, load)
  {
    hide AreNames, AreDescriptions, EntriesOf, IsWritable, HeaderLines, CfiLines, IsSymbolFile;
    EntriesAreLoadable(names, ds);
    WrittenIsFile(identity, functions, externs, load, data, EntriesOf(names, ds));
  }
}
