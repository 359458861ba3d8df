/**
 `DwarfCFIToModule`: the rules that a DWARF call frame information parser reports become a stack
 frame entry.  Warnings for the reporter are left out.
 */
module DwarfCfi {
  import opened CText
  import opened CfiTranslation
  import opened DecimalNumbers
  import opened OrderedKeys
  import opened SymbolFile
  import opened Words

  // ----- names and rules

  const CFA_REGISTER := -1
  const CFA_NAME: string := ".cfa"
  const RA_NAME: string := ".ra"

  /** A register number, or the pseudo-register for the call frame address. */
  type Register = r: int | r >= CFA_REGISTER

  /** What does not change while one entry is built. */
  datatype Context = Context(registerNames: seq<string>, returnAddress: nat)

  /** The type of offsets. */
  type Long = n: int | -0x8000_0000_0000_0000 <= n < 0x8000_0000_0000_0000

  const UNNAMED: string := "unnamed_register"

  function RegisterName(context: Context, i: Register): string {
    if i < 0 then CFA_NAME
    else if i == context.returnAddress then RA_NAME
    else if i < |context.registerNames| && context.registerNames[i] != "" then context.registerNames[i]
    else UNNAMED + DecimalText(i)
  }

  /** The calls between `Entry` and `End`. */
  datatype Call =
    | UndefinedRule(address: Address, reg: Register)
    | SameValueRule(address: Address, reg: Register)
    | OffsetRule(address: Address, reg: Register, base: Register, offset: Long)
    | ValOffsetRule(address: Address, reg: Register, base: Register, offset: Long)
    | RegisterRule(address: Address, reg: Register, base: Register)
    | ExpressionRule(address: Address, reg: Register, expression: string)
    | ValExpressionRule(address: Address, reg: Register, expression: string)

  /** The words of the rule that a call records; none for the kinds that cannot be expressed. */
  function RuleWords(context: Context, call: Call): seq<string> {
    match call
    case UndefinedRule(_, _) => []
    case SameValueRule(_, reg) => [RegisterName(context, reg)]
    case OffsetRule(_, _, base, offset) => [RegisterName(context, base), SignedText(offset), "+", "^"]
    case ValOffsetRule(_, _, base, offset) => [RegisterName(context, base), SignedText(offset), "+"]
    case RegisterRule(_, _, base) => [RegisterName(context, base)]
    case ExpressionRule(_, _, _) => []
    case ValExpressionRule(_, _, _) => []
  }

  function RuleText(context: Context, call: Call): string { Joined(RuleWords(context, call)) }

  /** The kinds of rules that can be written; the others record nothing. */
  predicate IsExpressible(call: Call) {
    call.SameValueRule? || call.OffsetRule? || call.ValOffsetRule? || call.RegisterRule?
  }

  /** The call records a rule for a name at an address. */
  predicate Records(context: Context, call: Call, address: Address, name: string) {
    IsExpressible(call) && call.address == address && RegisterName(context, call.reg) == name
  }

  // ----- the entry

  /** `Record`. */
  function Recorded(e: StackFrameEntry, address: Address, name: string, rule: string): StackFrameEntry {
    if address == e.address then e.(initialRules := e.initialRules[name := rule])
    else
      var rules := if address in e.ruleChanges then e.ruleChanges[address] else map[];
      e.(ruleChanges := e.ruleChanges[address := rules[name := rule]])
  }

  function Start(context: Context, address: Address, length: Address): StackFrameEntry {
    StackFrameEntry(address, length,
      if context.returnAddress < |context.registerNames|
      then map[RA_NAME := context.registerNames[context.returnAddress]]
      else map[],
      map[])
  }

  function After(context: Context, e: StackFrameEntry, call: Call): StackFrameEntry {
    if !IsExpressible(call) then e
    else Recorded(e, call.address, RegisterName(context, call.reg), RuleText(context, call))
  }

  function AfterAll(context: Context, e: StackFrameEntry, calls: seq<Call>): StackFrameEntry {
    if calls == [] then e else After(context, AfterAll(context, e, calls[..|calls| - 1]), calls[|calls| - 1])
  }

  class DwarfCFIToModule {
    const symbols: Module
    const registerNames: seq<string>
    var entry: Option<StackFrameEntry>
    var returnAddress: nat

    constructor (symbols: Module, registerNames: seq<string>)
      ensures this.symbols == symbols && this.registerNames == registerNames && entry == None
    {
      this.symbols, this.registerNames := symbols, registerNames;
      entry, returnAddress := None, 0xFFFF_FFFF;
    }

    ghost function Current(): Context
      reads this
    {
      Context(registerNames, returnAddress)
    }

    method Entry(address: Address, length: Address, returnAddress: nat) returns (ok: bool)
      requires entry.None?
      modifies this
      ensures ok && Current() == Context(registerNames, returnAddress)
      ensures entry == Some(Start(Current(), address, length))
    {
      var rules: RuleMap := map[];
      this.returnAddress := returnAddress;
      if this.returnAddress < |registerNames| {
        rules := rules[RA_NAME := registerNames[this.returnAddress]];
      }
      entry := Some(StackFrameEntry(address, length, rules, map[]));
      return true;
    }

    method Name(i: Register) returns (name: string)
      requires entry.Some?
      ensures name == RegisterName(Current(), i)
    {
      if i < 0 {
        assert i == CFA_REGISTER;
        return CFA_NAME;
      }
      if i == returnAddress {
        return RA_NAME;
      }
      if i < |registerNames| && registerNames[i] != "" {
        return registerNames[i];
      }
      return UNNAMED + DecimalText(i);
    }

    method Record(address: Address, reg: Register, rule: string)
      requires entry.Some?
      modifies this`entry
      ensures entry == Some(Recorded(old(entry).value, address, RegisterName(Current(), reg), rule))
    {
      var name := Name(reg);
      var e := entry.value;
      if address == e.address {
        entry := Some(e.(initialRules := e.initialRules[name := rule]));
      } else {
        var changes := e.ruleChanges;
        if address !in changes {
          changes := changes[address := map[]];
        }
        changes := changes[address := changes[address][name := rule]];
        assert changes == e.ruleChanges[address := changes[address]];
        entry := Some(e.(ruleChanges := changes));
      }
    }

    /** One of the seven functions that report a rule. */
    method Report(call: Call) returns (ok: bool)
      requires entry.Some?
      modifies this`entry
      ensures ok && entry == Some(After(Current(), old(entry).value, call))
    {
      match call {
        case UndefinedRule(address, reg) =>
        case SameValueRule(address, reg) =>
          var s := Name(reg);
          Record(address, reg, s);
        case OffsetRule(address, reg, base, offset) =>
          var s := Name(base);
          OffsetWords(s, SignedText(offset));
          Record(address, reg, s + [' '] + SignedText(offset) + [' '] + "+" + [' '] + "^");
        case ValOffsetRule(address, reg, base, offset) =>
          var s := Name(base);
          OffsetWords(s, SignedText(offset));
          Record(address, reg, s + [' '] + SignedText(offset) + [' '] + "+");
        case RegisterRule(address, reg, base) =>
          var s := Name(base);
          Record(address, reg, s);
        case ExpressionRule(address, reg, expression) =>
        case ValExpressionRule(address, reg, expression) =>
      }
      return true;
    }

    method End() returns (ok: bool)
      requires entry.Some?
      modifies this`entry, symbols`stackFrameEntries
      ensures ok && entry == None
      ensures symbols.stackFrameEntries == old(symbols.stackFrameEntries) + [old(entry).value]
    {
      symbols.AddStackFrameEntry(entry.value);
      entry := None;
      return true;
    }
  }

  lemma {:induction false} OffsetWords(name: string, offset: string)
    ensures Joined([name, offset, "+", "^"]) == name + [' '] + offset + [' '] + "+" + [' '] + "^"
    ensures Joined([name, offset, "+"]) == name + [' '] + offset + [' '] + "+"
  {
    JoinedMore("+", ["^"]);
    JoinedMore(offset, ["+", "^"]);
    JoinedMore(name, [offset, "+", "^"]);
    JoinedMore(offset, ["+"]);
    JoinedMore(name, [offset, "+"]);
    assert Joined(["+"]) == "+" && Joined(["^"]) == "^";
    assert name + [' '] + (offset + [' '] + ("+" + [' '] + "^")) == name + [' '] + offset + [' '] + "+" + [' '] + "^";
    assert name + [' '] + (offset + [' '] + "+") == name + [' '] + offset + [' '] + "+";
    assert [name] + [offset, "+", "^"] == [name, offset, "+", "^"] && [offset] + ["+", "^"] == [offset, "+", "^"];
    assert [name] + [offset, "+"] == [name, offset, "+"] && [offset] + ["+"] == [offset, "+"]
        && ["+"] + ["^"] == ["+", "^"];
  }

  lemma {:induction false} JoinedMore(t: string, ts: seq<string>)
    requires ts != []
    ensures Joined([t] + ts) == t + [' '] + Joined(ts)
  {
    assert ([t] + ts)[1..] == ts;
  }

  // ----- which rule is in force

  /** The rule for a name at just one address: among the initial rules, or among the changes. */
  function Slot(e: StackFrameEntry, address: Address, name: string): Option<string> {
    if address == e.address then (if name in e.initialRules then Some(e.initialRules[name]) else None)
    else if address in e.ruleChanges && name in e.ruleChanges[address] then Some(e.ruleChanges[address][name])
    else None
  }

  /** Call i is the last that records a rule for a name at an address. */
  predicate IsLastRecord(context: Context, calls: seq<Call>, address: Address, name: string, i: nat) {
    && i < |calls| && Records(context, calls[i], address, name)
    && forall j :: i < j < |calls| ==> !Records(context, calls[j], address, name)
  }

  lemma {:induction false} SlotRecorded(e: StackFrameEntry, at: Address, n: string, rule: string,
      address: Address, name: string)
    ensures var r := Recorded(e, at, n, rule);
      && Slot(r, address, name) == (if at == address && n == name then Some(rule) else Slot(e, address, name))
      && r.address == e.address && r.size == e.size
  {
  }

  lemma {:induction false} SlotAfter(context: Context, e: StackFrameEntry, call: Call, address: Address, name: string)
    ensures Slot(After(context, e, call), address, name)
         == if Records(context, call, address, name) then Some(RuleText(context, call)) else Slot(e, address, name)
    ensures After(context, e, call).address == e.address && After(context, e, call).size == e.size
  {
    hide RuleText, RegisterName, RuleWords, Recorded, Slot;
    SlotRecorded(e, call.address, RegisterName(context, call.reg), RuleText(context, call), address, name);
  }

  /** The rule that an entry starts with. */
  function DefaultRule(context: Context, name: string): Option<string> {
    if name == RA_NAME && context.returnAddress < |context.registerNames|
    then Some(context.registerNames[context.returnAddress]) else None
  }

  /** What the entry holds at an address is what was recorded there last, or what it started with. */
  lemma {:induction false} SlotAfterAll(context: Context, e: StackFrameEntry, calls: seq<Call>,
      address: Address, name: string)
    ensures var slot := Slot(AfterAll(context, e, calls), address, name);
      && (forall i: nat :: IsLastRecord(context, calls, address, name, i) ==> slot == Some(RuleText(context, calls[i])))
      && ((forall i :: 0 <= i < |calls| ==> !Records(context, calls[i], address, name))
           ==> slot == Slot(e, address, name))
      && AfterAll(context, e, calls).address == e.address && AfterAll(context, e, calls).size == e.size
    decreases |calls|
  {
    hide RuleText, Slot, Records, After;
    if calls != [] {
      var before, last := calls[..|calls| - 1], calls[|calls| - 1];
      SlotAfterAll(context, e, before, address, name);
      SlotAfter(context, AfterAll(context, e, before), last, address, name);
      forall i: nat | IsLastRecord(context, calls, address, name, i)
        ensures Slot(AfterAll(context, e, calls), address, name) == Some(RuleText(context, calls[i]))
      {
        if i < |before| {
          assert IsLastRecord(context, before, address, name, i);
          assert calls[i] == before[i];
        }
      }
    }
  }

  /** The last call for a name at the greatest address up to x. */
  predicate IsInForce(context: Context, calls: seq<Call>, name: string, x: Address, i: nat) {
    && i < |calls| && calls[i].address <= x && IsLastRecord(context, calls, calls[i].address, name, i)
    && forall j :: 0 <= j < |calls| && calls[i].address < calls[j].address <= x ==>
         !Records(context, calls[j], calls[j].address, name)
  }

  /** No call records a rule for a name at an address up to x. */
  predicate NoneRecorded(context: Context, calls: seq<Call>, name: string, x: Address) {
    forall j :: 0 <= j < |calls| && calls[j].address <= x ==> !Records(context, calls[j], calls[j].address, name)
  }

  lemma {:induction false} LastRecordExists(context: Context, calls: seq<Call>, address: Address, name: string, k: nat)
    requires k < |calls| && Records(context, calls[k], address, name)
    ensures exists i: nat :: IsLastRecord(context, calls, address, name, i)
    decreases |calls| - k
  {
    hide Records;
    if !IsLastRecord(context, calls, address, name, k) {
      var j: nat :| k < j < |calls| && Records(context, calls[j], address, name);
      LastRecordExists(context, calls, address, name, j);
    }
  }

  /** The rules in force in the entry that the calls have built. */
  lemma {:induction false} ChangeMeansRecord(context: Context, e: StackFrameEntry, calls: seq<Call>,
      address: Address, name: string)
    requires Slot(e, address, name) == None && Slot(AfterAll(context, e, calls), address, name).Some?
    ensures exists j :: 0 <= j < |calls| && Records(context, calls[j], address, name)
  {
    SlotAfterAll(context, e, calls, address, name);
  }

  /**
   For calls at or behind the start of the entry, the rule in force for each name at each address is
   the last that was recorded at the greatest address up to there; if none was, the rule from the
   start is, which names the return address register.
   */
  lemma {:induction false} LastRecordIsInForce(context: Context, address: Address, length: Address,
      calls: seq<Call>, name: string, x: Address)
    requires address <= x && forall c <- calls :: address <= c.address
    ensures var e := AfterAll(context, Start(context, address, length), calls);
      && (forall i: nat :: IsInForce(context, calls, name, x, i) ==>
            RuleInForce(e, name, x) == Some(RuleText(context, calls[i])))
      && (NoneRecorded(context, calls, name, x) ==> RuleInForce(e, name, x) == DefaultRule(context, name))
    ensures NoneRecorded(context, calls, name, x) || exists i: nat :: IsInForce(context, calls, name, x, i)
  {
    hide Records, RuleText, AfterAll;
    var start := Start(context, address, length);
    var e := AfterAll(context, start, calls);
    forall a: Address ensures Slot(start, a, name).Some? ==> a == address {
    }
    SlotAfterAll(context, start, calls, address, name);
    forall i: nat | IsInForce(context, calls, name, x, i)
      ensures RuleInForce(e, name, x) == Some(RuleText(context, calls[i])) {
      RecordInForce(context, start, calls, name, x, i);
    }
    if NoneRecorded(context, calls, name, x) {
      NoRecordInForce(context, start, calls, name, x);
    } else {
      InForceExists(context, calls, name, x);
    }
  }

  /** Between the call in force and x nothing is recorded for the name. */
  lemma {:induction false} NoChangeBetween(context: Context, start: StackFrameEntry, calls: seq<Call>,
      name: string, x: Address, i: nat, c: Address)
    requires start.ruleChanges == map[] && forall c <- calls :: start.address <= c.address
    requires IsInForce(context, calls, name, x, i) && c != start.address
    requires Slot(AfterAll(context, start, calls), c, name).Some?
    ensures c > start.address && (c <= calls[i].address || c > x)
  {
    hide Records, RuleText, AfterAll;
    ChangeIsBehind(context, start, calls, c, name);
    ChangeMeansRecord(context, start, calls, c, name);
    var j :| 0 <= j < |calls| && Records(context, calls[j], c, name);
    RecordAt(context, calls[j], c, name);
  }

  lemma {:induction false} RecordInForce(context: Context, start: StackFrameEntry, calls: seq<Call>,
      name: string, x: Address, i: nat)
    requires start.ruleChanges == map[] && start.address <= x && forall c <- calls :: start.address <= c.address
    requires IsInForce(context, calls, name, x, i)
    ensures RuleInForce(AfterAll(context, start, calls), name, x) == Some(RuleText(context, calls[i]))
  {
    hide Records, RuleText, AfterAll;
    var e, at := AfterAll(context, start, calls), calls[i].address;
    SlotAfterAll(context, start, calls, at, name);
    assert calls[i] in calls;
    assert at <= x && at >= start.address;
    forall c | c in e.ruleChanges && name in e.ruleChanges[c] && c != start.address
      ensures c > start.address && (c <= at || c > x)
    {
      NoChangeBetween(context, start, calls, name, x, i, c);
    }
    NoChangeAtStart(context, start, calls);
    hide IsInForce, IsLastRecord;
    if at != start.address {
      assert IsLastChange(e, name, x, at);
    } else {
      assert !exists c :: IsLastChange(e, name, x, c);
    }
  }

  lemma {:induction false} RecordAt(context: Context, call: Call, address: Address, name: string)
    ensures Records(context, call, address, name) ==> call.address == address
  {
  }

  /** Nothing is ever recorded as a change at the start of the entry. */
  lemma {:induction false} NoChangeAtStart(context: Context, start: StackFrameEntry, calls: seq<Call>)
    requires start.address !in start.ruleChanges
    ensures start.address !in AfterAll(context, start, calls).ruleChanges
    ensures AfterAll(context, start, calls).address == start.address
        && AfterAll(context, start, calls).size == start.size
    decreases |calls|
  {
    hide RuleText, RegisterName, RuleWords;
    if calls != [] {
      NoChangeAtStart(context, start, calls[..|calls| - 1]);
    }
  }

  lemma {:induction false} ChangeIsBehind(context: Context, start: StackFrameEntry, calls: seq<Call>,
      address: Address, name: string)
    requires start.ruleChanges == map[] && forall c <- calls :: start.address <= c.address
    requires Slot(AfterAll(context, start, calls), address, name).Some?
    ensures start.address <= address
  {
    hide Records, RuleText, AfterAll;
    if address != start.address {
      ChangeMeansRecord(context, start, calls, address, name);
      var j :| 0 <= j < |calls| && Records(context, calls[j], address, name);
      RecordAt(context, calls[j], address, name);
      assert calls[j] in calls;
    }
  }

  lemma {:induction false} NoRecordInForce(context: Context, start: StackFrameEntry, calls: seq<Call>,
      name: string, x: Address)
    requires start.ruleChanges == map[] && start.address <= x && forall c <- calls :: start.address <= c.address
    requires NoneRecorded(context, calls, name, x)
    ensures RuleInForce(AfterAll(context, start, calls), name, x) == Slot(start, start.address, name)
  {
    hide Records, RuleText, AfterAll;
    var e := AfterAll(context, start, calls);
    NoChangeAtStart(context, start, calls);
    forall c: Address | c <= x ensures Slot(e, c, name) == Slot(start, c, name) {
      forall i | 0 <= i < |calls| ensures !Records(context, calls[i], c, name) {
        RecordAt(context, calls[i], c, name);
      }
      SlotAfterAll(context, start, calls, c, name);
    }
    assert Slot(e, start.address, name) == Slot(start, start.address, name);
    forall c: Address ensures !IsLastChange(e, name, x, c) {
      if c <= x {
        assert Slot(e, c, name) == Slot(start, c, name);
      }
    }
  }

  /** Some recording call has the greatest address up to x. */
  lemma {:induction false} InForceExists(context: Context, calls: seq<Call>, name: string, x: Address)
    requires !NoneRecorded(context, calls, name, x)
    ensures exists i: nat :: IsInForce(context, calls, name, x, i)
  {
    hide Records;
    var k: nat :| 0 <= k < |calls| && calls[k].address <= x && Records(context, calls[k], calls[k].address, name);
    var addresses := set j: nat
      | j < |calls| && calls[j].address <= x && Records(context, calls[j], calls[j].address, name)
      :: calls[j].address;
    assert calls[k].address in addresses;
    AddressOrder();
    var greatest := LeastInOrder(addresses, AddressAtLeast);
    assert forall a <- addresses :: AddressAtLeast(greatest, a);
    var j: nat :| j < |calls| && calls[j].address == greatest && Records(context, calls[j], greatest, name);
    LastRecordExists(context, calls, greatest, name, j);
    var i: nat :| IsLastRecord(context, calls, greatest, name, i);
    RecordAt(context, calls[i], greatest, name);
    forall j | 0 <= j < |calls| && greatest < calls[j].address <= x
      ensures !Records(context, calls[j], calls[j].address, name) {
      assert Records(context, calls[j], calls[j].address, name) <==> calls[j].address in addresses;
    }
    assert IsInForce(context, calls, name, x, i);
  }
}
