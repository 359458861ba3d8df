/**
 `PostfixEvaluator`: expressions in postfix notation over a dictionary of variables and a region of
 memory, evaluated with a stack of texts.
 */
module PostfixEvaluators {
  import opened CText
  import opened DecimalNumbers
  import opened OrderedKeys
  import opened Words

  /** What separates the tokens that a stream extracts. */
  const SPACES: set<char> := {' ', '\t', '\n', 11 as char, 12 as char, '\r'}

  /** Values are unsigned numbers of 32 or of 64 bits. */
  type Modulus = m: int | m == 0x1_0000_0000 || m == ADDRESS_SPACE witness ADDRESS_SPACE

  type Dictionary = map<string, nat>

  /** The values of the size in question that can be read, by address. */
  type Memory = map<nat, nat>

  ghost predicate AreValues(dictionary: Dictionary, memory: Memory, m: Modulus) {
    (forall k <- dictionary :: dictionary[k] < m) && (forall k <- memory :: memory[k] < m)
  }

  /** A number modulo m. */
  function Reduced(x: int, m: Modulus): (r: nat)
    ensures r < m
    ensures 0 <= x < m ==> r == x
    ensures -x < m && x < 0 ==> r == x + m
  {
    if m == ADDRESS_SPACE then x % ADDRESS_SPACE else x % 0x1_0000_0000
  }

  // ----- tokens

  /** What a stream extracts as an unsigned number, if that is all there is; it takes a sign, too. */
  function Extract(text: string, m: Modulus): (v: Option<nat>)
    ensures v.Some? ==> v.value < m
  {
    var signed := text != "" && (text[0] == '-' || text[0] == '+');
    var digits := if signed then text[1..] else text;
    if !IsNumeral(digits) || DecimalValue(digits) >= m then None
    else
      var n: int := DecimalValue(digits);
      Some(Reduced(if signed && text[0] == '-' then -n else n, m))
  }

  /** A text that is a number: a minus is taken off before the stream sees it. */
  function Literal(token: string, m: Modulus): (v: Option<nat>)
    ensures v.Some? ==> v.value < m
  {
    if token != "" && token[0] == '-' then
      var v := Extract(token[1..], m);
      if v.Some? then Some(Negated(v.value, m)) else None
    else Extract(token, m)
  }

  function Negated(n: int, m: Modulus): nat { Reduced(-n, m) }

  /** What a token on the stack stands for: a number, or a variable of the dictionary. */
  function Resolved(token: string, dictionary: Dictionary, m: Modulus): Option<nat> {
    if Literal(token, m).Some? then Literal(token, m)
    else if token in dictionary then Some(dictionary[token]) else None
  }

  predicate IsBinary(token: string) {
    token == "+" || token == "-" || token == "*" || token == "/" || token == "%" || token == "@"
  }

  /** The bits that two numbers have in common. */
  function BitAnd(a: nat, b: nat): nat {
    if a == 0 || b == 0 then 0 else (if a % 2 == 1 && b % 2 == 1 then 1 else 0) + 2 * BitAnd(a / 2, b / 2)
  }

  /** A binary operation on numbers modulo m; there is no quotient and no remainder by zero. */
  function Applied(op: string, a: nat, b: nat, m: Modulus): Option<nat>
    requires IsBinary(op)
  {
    if op == "+" then Some(Reduced(a + b, m))
    else if op == "-" then Some(Reduced(a - b, m))
    else if op == "*" then Some(Reduced(a * b, m))
    else if op == "@" then Some(BitAnd(a, m - 1 - Reduced(b - 1, m)))
    else if b == 0 then None
    else Some(if op == "/" then a / b else a % b)
  }

  // ----- one token after the other

  /** Whether evaluation goes on, the stack if it does, and the dictionary. */
  datatype Done = Done(ok: bool, stack: seq<string>, dictionary: Dictionary)

  function TokenDone(token: string, stack: seq<string>, dictionary: Dictionary, memory: Option<Memory>,
      m: Modulus): Done
  {
    var n, failed := |stack|, Done(false, [], dictionary);
    if IsBinary(token) then
      if n < 2 then failed
      else
        var a, b := Resolved(stack[n - 2], dictionary, m), Resolved(stack[n - 1], dictionary, m);
        if a.None? || b.None? then failed
        else
          var r := Applied(token, a.value, b.value, m);
          if r.None? then failed else Done(true, stack[..n - 2] + [DecimalText(r.value)], dictionary)
    else if token == "^" then
      if n < 1 || memory.None? then failed
      else
        var a := Resolved(stack[n - 1], dictionary, m);
        if a.None? || a.value !in memory.value then failed
        else Done(true, stack[..n - 1] + [DecimalText(memory.value[a.value])], dictionary)
    else if token == "=" then
      if n < 2 || Literal(stack[n - 2], m).Some? || stack[n - 2] == "" || stack[n - 2][0] != '$' then failed
      else
        var v := Resolved(stack[n - 1], dictionary, m);
        if v.None? then failed else Done(true, stack[..n - 2], dictionary[stack[n - 2] := v.value])
    else Done(true, stack + [token], dictionary)
  }

  /** An assignment may stick to the token behind it. */
  function WordDone(word: string, stack: seq<string>, dictionary: Dictionary, memory: Option<Memory>,
      m: Modulus): Done
  {
    if |word| > 1 && word[0] == '=' then
      var first := TokenDone("=", stack, dictionary, memory, m);
      if first.ok then TokenDone(word[1..], first.stack, first.dictionary, memory, m) else first
    else TokenDone(word, stack, dictionary, memory, m)
  }

  function WordsDone(words: seq<string>, stack: seq<string>, dictionary: Dictionary, memory: Option<Memory>,
      m: Modulus): Done
    decreases |words|
  {
    if words == [] then Done(true, stack, dictionary)
    else
      var first := WordDone(words[0], stack, dictionary, memory, m);
      if first.ok then WordsDone(words[1..], first.stack, first.dictionary, memory, m) else first
  }

  /** What an expression evaluates to; it should leave just one token on the stack. */
  function Evaluated(expression: string, dictionary: Dictionary, memory: Option<Memory>, m: Modulus): Option<nat> {
    var r := WordsDone(Tokens(expression, SPACES), [], dictionary, memory, m);
    if r.ok && |r.stack| == 1 then Resolved(r.stack[0], r.dictionary, m) else None
  }

  // ----- the program

  datatype PopResult = Fail | Value(value: nat) | Identifier(name: string)

  class PostfixEvaluator {
    const m: Modulus
    const memory: Option<Memory>
    var dictionary: Dictionary
    var stack: seq<string>

    constructor (dictionary: Dictionary, memory: Option<Memory>, m: Modulus)
      ensures this.dictionary == dictionary && this.memory == memory && this.m == m && stack == []
    {
      this.dictionary, this.memory, this.m, stack := dictionary, memory, m, [];
    }

    method PopValueOrIdentifier() returns (result: PopResult)
      modifies this`stack
      ensures old(stack) == [] ==> result == Fail && stack == []
      ensures old(stack) != [] ==>
        (var token := old(stack)[|old(stack)| - 1];
         && stack == old(stack)[..|old(stack)| - 1]
         && result == if Literal(token, m).Some? then Value(Literal(token, m).value) else Identifier(token))
    {
      if |stack| == 0 {
        return Fail;
      }
      hide Extract, Negated;
      var token := stack[|stack| - 1];
      stack := stack[..|stack| - 1];
      var negative := token != "" && token[0] == '-';
      var literal := Extract(if negative then token[1..] else token, m);
      if literal.Some? {
        return Value(if negative then Negated(literal.value, m) else literal.value);
      }
      return Identifier(token);
    }

    method PopValue() returns (value: Option<nat>)
      modifies this`stack
      ensures old(stack) == [] ==> value == None && stack == []
      ensures old(stack) != [] ==>
        && stack == old(stack)[..|old(stack)| - 1]
        && value == Resolved(old(stack)[|old(stack)| - 1], dictionary, m)
    {
      var result := PopValueOrIdentifier();
      match result {
        case Fail => return None;
        case Value(v) => return Some(v);
        case Identifier(name) =>
          if name !in dictionary {
            return None;
          }
          return Some(dictionary[name]);
      }
    }

    method PushValue(value: nat)
      modifies this`stack
      ensures stack == old(stack) + [DecimalText(value)]
    {
      stack := stack + [DecimalText(value)];
    }

    method EvaluateToken(token: string) returns (ok: bool)
      modifies this`stack, this`dictionary
      ensures var r := TokenDone(token, old(stack), old(dictionary), memory, m);
        ok == r.ok && dictionary == r.dictionary && (ok ==> stack == r.stack)
    {
      hide Literal, Applied;
      if IsBinary(token) {
        var operand2 := PopValue();
        if operand2.None? {
          return false;
        }
        var operand1 := PopValue();
        if operand1.None? {
          return false;
        }
        var result := Applied(token, operand1.value, operand2.value, m);
        if result.None? {
          return false;
        }
        PushValue(result.value);
      } else if token == "^" {
        if memory.None? {
          return false;
        }
        var address := PopValue();
        if address.None? || address.value !in memory.value {
          return false;
        }
        PushValue(memory.value[address.value]);
      } else if token == "=" {
        var value := PopValue();
        if value.None? {
          return false;
        }
        var result := PopValueOrIdentifier();
        if !result.Identifier? || result.name == "" || result.name[0] != '$' {
          return false;
        }
        dictionary := dictionary[result.name := value.value];
      } else {
        stack := stack + [token];
      }
      return true;
    }

    method EvaluateInternal(expression: string) returns (ok: bool)
      modifies this`stack, this`dictionary
      ensures var r := WordsDone(Tokens(expression, SPACES), old(stack), old(dictionary), memory, m);
        ok == r.ok && dictionary == r.dictionary && (ok ==> stack == r.stack)
    {
      hide TokenDone;
      ghost var whole := WordsDone(Tokens(expression, SPACES), stack, dictionary, memory, m);
      var token := Strtok(expression, SPACES);
      while token.Some?
        invariant WordsDone(Remaining(token, SPACES), stack, dictionary, memory, m) == whole
        decreases Remaining(token, SPACES)
      {
        var text := token.value.text;
        assert Remaining(token, SPACES)[1..] == Tokens(token.value.cursor, SPACES);
        if |text| > 1 && text[0] == '=' {
          ok := EvaluateToken("=");
          if !ok {
            return false;
          }
          text := text[1..];
        }
        ok := EvaluateToken(text);
        if !ok {
          return false;
        }
        token := Strtok(token.value.cursor, SPACES);
      }
      return true;
    }

    method EvaluateForValue(expression: string) returns (result: Option<nat>)
      requires stack == []
      modifies this`stack, this`dictionary
      ensures stack == [] && result == Evaluated(expression, old(dictionary), memory, m)
    {
      hide WordsDone;
      var ok := EvaluateInternal(expression);
      if !ok || |stack| != 1 {
        stack := [];
        return None;
      }
      result := PopValue();
    }
  }

  // ----- expressions as trees

  datatype Tree =
    | Constant(n: int)
    | Variable(name: string)
    | Binary(op: string, left: Tree, right: Tree)
    | Load(at: Tree)

  function Postfix(t: Tree): seq<string> {
    match t
    case Constant(n) => [SignedText(n)]
    case Variable(name) => [name]
    case Binary(op, left, right) => Postfix(left) + Postfix(right) + [op]
    case Load(at) => Postfix(at) + ["^"]
  }

  /** A name that the evaluator takes for a variable. */
  predicate IsVariable(name: string, m: Modulus) {
    IsToken(name, SPACES) && name[0] != '=' && !IsBinary(name) && name != "^" && Literal(name, m).None?
  }

  predicate IsTree(t: Tree, m: Modulus) {
    match t
    case Constant(n) => n < m && -n < m
    case Variable(name) => IsVariable(name, m)
    case Binary(op, left, right) => IsBinary(op) && IsTree(left, m) && IsTree(right, m)
    case Load(at) => IsTree(at, m)
  }

  /** The value of a tree, if its variables have values, its addresses can be read and nothing is divided by zero. */
  function TreeValue(t: Tree, dictionary: Dictionary, memory: Memory, m: Modulus): Option<nat>
    requires IsTree(t, m)
  {
    match t
    case Constant(n) => Some(Reduced(n, m))
    case Variable(name) => if name in dictionary then Some(dictionary[name]) else None
    case Binary(op, left, right) =>
      var a, b := TreeValue(left, dictionary, memory, m), TreeValue(right, dictionary, memory, m);
      if a.Some? && b.Some? then Applied(op, a.value, b.value, m) else None
    case Load(at) =>
      var a := TreeValue(at, dictionary, memory, m);
      if a.Some? && a.value in memory then Some(memory[a.value]) else None
  }

  lemma {:induction false} WordsDoneBoth(a: seq<string>, b: seq<string>, stack: seq<string>,
      dictionary: Dictionary, memory: Option<Memory>, m: Modulus)
    ensures var r := WordsDone(a, stack, dictionary, memory, m);
      WordsDone(a + b, stack, dictionary, memory, m)
        == if r.ok then WordsDone(b, r.stack, r.dictionary, memory, m) else r
    decreases |a|
  {
    hide WordDone;
    if a == [] {
      assert a + b == b;
    } else {
      assert (a + b)[1..] == a[1..] + b;
      var first := WordDone(a[0], stack, dictionary, memory, m);
      if first.ok {
        WordsDoneBoth(a[1..], b, first.stack, first.dictionary, memory, m);
      }
    }
  }

  lemma {:induction false} OneWord(word: string, stack: seq<string>, dictionary: Dictionary,
      memory: Option<Memory>, m: Modulus)
    requires !(|word| > 1 && word[0] == '=')
    ensures WordsDone([word], stack, dictionary, memory, m) == TokenDone(word, stack, dictionary, memory, m)
  {
    hide TokenDone;
    assert [word][1..] == [];
  }

  /** An operation takes two tokens off the stack and puts its result on it. */
  lemma {:induction false} OneOperation(op: string, stack: seq<string>, a: string, b: string,
      dictionary: Dictionary, memory: Option<Memory>, m: Modulus)
    requires IsBinary(op)
    ensures var x, y := Resolved(a, dictionary, m), Resolved(b, dictionary, m);
      var v := if x.Some? && y.Some? then Applied(op, x.value, y.value, m) else None;
      WordsDone([op], stack + [a] + [b], dictionary, memory, m)
        == if v.Some? then Done(true, stack + [DecimalText(v.value)], dictionary) else Done(false, [], dictionary)
  {
    hide Applied, Resolved, WordsDone;
    OneWord(op, stack + [a] + [b], dictionary, memory, m);
    assert (stack + [a] + [b])[..|stack|] == stack;
  }

  /** A numeral is read as its value, and with a minus before it as that negated. */
  lemma {:induction false} ReadNumeral(digits: string, m: Modulus)
    requires IsNumeral(digits) && DecimalValue(digits) < m
    ensures Extract(digits, m) == Some(Reduced(DecimalValue(digits), m)) && Literal(digits, m) == Extract(digits, m)
    ensures Literal(['-'] + digits, m) == Some(Negated(Reduced(DecimalValue(digits), m), m))
  {
    hide DecimalValue, Reduced;
    assert digits[0] in digits;
    assert (['-'] + digits)[1..] == digits;
  }

  /** One that is too long is no number. */
  lemma {:induction false} LongNumeral(digits: string, m: Modulus)
    requires IsNumeral(digits) && DecimalValue(digits) >= m
    ensures Literal(digits, m) == None && Literal(['-'] + digits, m) == None
  {
    hide DecimalValue, Reduced;
    assert digits[0] in digits;
    assert (['-'] + digits)[1..] == digits;
  }

  lemma {:induction false} NumeralIsToken(digits: string)
    requires IsNumeral(digits)
    ensures IsToken(digits, SPACES) && IsToken(['-'] + digits, SPACES)
    ensures !IsBinary(digits) && !IsBinary(['-'] + digits)
    ensures '0' <= digits[0] <= '9'
  {
    assert digits[0] in digits;
  }

  /** Numbers that were printed are read as themselves, modulo m. */
  lemma {:induction false} ReadSigned(n: int, m: Modulus)
    requires n < m && -n < m
    ensures Literal(SignedText(n), m) == Some(Reduced(n, m))
    ensures !IsBinary(SignedText(n)) && SignedText(n) != "^" && SignedText(n)[0] != '='
    ensures IsToken(SignedText(n), SPACES)
  {
    hide DecimalText, DecimalValue, Literal, Extract, IsToken, IsBinary;
    var size := if n < 0 then -n else n;
    ReadDecimalText(size);
    assert IsNumeral(DecimalText(size));
    ReadNumeral(DecimalText(size), m);
    NumeralIsToken(DecimalText(size));
  }

  lemma {:induction false} AppliedFits(op: string, a: nat, b: nat, m: Modulus)
    requires IsBinary(op) && a < m && b < m
    ensures var r := Applied(op, a, b, m); r.Some? ==> r.value < m
  {
    hide BitAnd, Reduced;
    if op == "@" {
      BitAndFits(a, m - 1 - Reduced(b - 1, m));
    } else if b != 0 {
      QuotientFits(a, b);
    }
  }

  lemma {:induction false} QuotientFits(a: nat, b: nat)
    requires b > 0
    ensures 0 <= a / b <= a && 0 <= a % b <= a
  {
    var q, r := a / b, a % b;
    assert a == b * q + r;
    TimesIsMore(b, q);
  }

  lemma {:induction false} TimesIsMore(b: nat, q: nat)
    requires b > 0
    ensures b * q >= q
  {
    assert b * q == (b - 1) * q + q;
  }

  lemma {:induction false} BitAndFits(a: nat, b: nat)
    ensures BitAnd(a, b) <= a
  {
    if a != 0 && b != 0 {
      BitAndFits(a / 2, b / 2);
    }
  }

  lemma {:induction false} ResolvedFits(token: string, dictionary: Dictionary, memory: Memory, m: Modulus)
    requires AreValues(dictionary, memory, m)
    ensures var r := Resolved(token, dictionary, m); r.Some? ==> r.value < m
  {
  }

  /** The postfix form of a tree leaves one token on the stack, which stands for the tree's value. */
  lemma {:induction false} PostfixRuns(t: Tree, stack: seq<string>, dictionary: Dictionary, memory: Memory,
      m: Modulus) returns (token: string)
    requires IsTree(t, m) && AreValues(dictionary, memory, m)
    ensures var r := WordsDone(Postfix(t), stack, dictionary, Some(memory), m);
      if r.ok then r == Done(true, stack + [token], dictionary)
                   && Resolved(token, dictionary, m) == TreeValue(t, dictionary, memory, m)
      else TreeValue(t, dictionary, memory, m) == None
    decreases t, 1
  {
    hide WordsDone, Literal, Applied, AreValues, Reduced, SignedText;
    match t {
      case Constant(n) =>
        token := SignedText(n);
        ReadSigned(n, m);
        OneWord(token, stack, dictionary, Some(memory), m);
      case Variable(name) =>
        token := name;
        OneWord(token, stack, dictionary, Some(memory), m);
      case Binary(op, left, right) =>
        token := BinaryRuns(op, left, right, stack, dictionary, memory, m);
      case Load(at) =>
        var a := PostfixRuns(at, stack, dictionary, memory, m);
        WordsDoneBoth(Postfix(at), ["^"], stack, dictionary, Some(memory), m);
        OneWord("^", stack + [a], dictionary, Some(memory), m);
        assert (stack + [a])[..|stack|] == stack;
        var v := Resolved(a, dictionary, m);
        token := "";
        if v.Some? && v.value in memory {
          token := DecimalText(memory[v.value]);
          ReadLoaded(v.value, dictionary, memory, m);
        }
    }
  }

  lemma {:induction false} ReadLoaded(a: nat, dictionary: Dictionary, memory: Memory, m: Modulus)
    requires AreValues(dictionary, memory, m) && a in memory
    ensures Literal(DecimalText(memory[a]), m) == Some(memory[a])
  {
    hide Literal, Reduced;
    ReadSigned(memory[a], m);
  }

  lemma {:induction false} BinaryRuns(op: string, left: Tree, right: Tree, stack: seq<string>,
      dictionary: Dictionary, memory: Memory, m: Modulus) returns (token: string)
    requires IsTree(Binary(op, left, right), m) && AreValues(dictionary, memory, m)
    ensures var t := Binary(op, left, right);
      var r := WordsDone(Postfix(t), stack, dictionary, Some(memory), m);
      if r.ok then r == Done(true, stack + [token], dictionary)
                   && Resolved(token, dictionary, m) == TreeValue(t, dictionary, memory, m)
      else TreeValue(t, dictionary, memory, m) == None
    decreases Binary(op, left, right), 0
  {
    hide WordsDone, Literal, Applied, AreValues, Reduced, IsBinary;
    var a := PostfixRuns(left, stack, dictionary, memory, m);
    var b := PostfixRuns(right, stack + [a], dictionary, memory, m);
    WordsDoneBoth(Postfix(left) + Postfix(right), [op], stack, dictionary, Some(memory), m);
    WordsDoneBoth(Postfix(left), Postfix(right), stack, dictionary, Some(memory), m);
    OneOperation(op, stack, a, b, dictionary, Some(memory), m);
    token := "";
    var x, y := Resolved(a, dictionary, m), Resolved(b, dictionary, m);
    if x.Some? && y.Some? && Applied(op, x.value, y.value, m).Some? {
      token := DecimalText(Applied(op, x.value, y.value, m).value);
      ResolvedFits(a, dictionary, memory, m);
      ResolvedFits(b, dictionary, memory, m);
      AppliedFits(op, x.value, y.value, m);
      ReadSigned(Applied(op, x.value, y.value, m).value, m);
    }
  }

  lemma {:induction false} PostfixIsTokens(t: Tree, m: Modulus)
    requires IsTree(t, m)
    ensures Postfix(t) != [] && forall w <- Postfix(t) :: IsToken(w, SPACES)
  {
    hide Literal;
    match t {
      case Constant(n) => ReadSigned(n, m);
      case Variable(name) =>
      case Binary(op, left, right) =>
        PostfixIsTokens(left, m);
        PostfixIsTokens(right, m);
      case Load(at) => PostfixIsTokens(at, m);
    }
  }

  /** For all expressions: the text of the postfix form evaluates to the value of the tree. */
  lemma {:induction false} EvaluatesTree(t: Tree, dictionary: Dictionary, memory: Memory, m: Modulus)
    requires IsTree(t, m) && AreValues(dictionary, memory, m)
    ensures Evaluated(Joined(Postfix(t)), dictionary, Some(memory), m) == TreeValue(t, dictionary, memory, m)
  {
    hide WordsDone, Literal, Resolved, Tokens, Joined, TreeValue, AreValues, IsTree;
    PostfixIsTokens(t, m);
    TokensOfJoined(Postfix(t), SPACES);
    var token := PostfixRuns(t, [], dictionary, memory, m);
  }

  /**
   An assignment to a variable, which must begin with a dollar sign, sets it to the value of the
   expression and leaves nothing on the stack.
   */
  lemma {:induction false} AssignmentSets(name: string, t: Tree, stack: seq<string>, dictionary: Dictionary,
      memory: Memory, m: Modulus)
    requires IsVariable(name, m) && IsTree(t, m) && AreValues(dictionary, memory, m)
    ensures var r := WordsDone([name] + Postfix(t) + ["="], stack, dictionary, Some(memory), m);
      var v := TreeValue(t, dictionary, memory, m);
      if name[0] == '$' && v.Some? then r == Done(true, stack, dictionary[name := v.value]) else !r.ok
  {
    hide WordsDone, Literal, Applied, AreValues, Reduced;
    WordsDoneBoth([name] + Postfix(t), ["="], stack, dictionary, Some(memory), m);
    WordsDoneBoth([name], Postfix(t), stack, dictionary, Some(memory), m);
    OneWord(name, stack, dictionary, Some(memory), m);
    var token := PostfixRuns(t, stack + [name], dictionary, memory, m);
    OneWord("=", stack + [name] + [token], dictionary, Some(memory), m);
    assert (stack + [name] + [token])[..|stack|] == stack;
  }

  // ----- alignment

  lemma {:induction false} AndAll(a: nat, bits: nat)
    requires a < Two(bits)
    ensures BitAnd(a, Two(bits) - 1) == a
  {
    if bits > 0 && a > 0 {
      AndAll(a / 2, bits - 1);
    }
  }

  function Two(bits: nat): (p: nat)
    ensures p > 0
  {
    if bits == 0 then 1 else 2 * Two(bits - 1)
  }

  lemma {:induction false} HalfRemainder(a: nat, h: nat)
    requires h > 0
    ensures a % (2 * h) == 2 * (a / 2 % h) + a % 2
  {
    var q, r := a / 2 / h, a / 2 % h;
    assert a / 2 == h * q + r;
    assert a == 2 * h * q + (2 * r + a % 2);
    RemainderIs(a, 2 * h, q, 2 * r + a % 2);
  }

  lemma {:induction false} RemainderIs(a: nat, d: nat, q: nat, r: nat)
    requires r < d && a == d * q + r
    ensures a % d == r
  {
    if a % d != r {
      var more := q - a / d;
      assert a == d * (a / d) + a % d;
      assert d * more == a % d - r;
      TimesAtLeast(d, more);
    }
  }

  lemma {:induction false} TimesAtLeast(d: nat, x: int)
    ensures x >= 1 ==> d * x >= d
    ensures x <= -1 ==> d * x + d <= 0
  {
  }

  lemma {:induction false} AndHigh(a: nat, low: nat, bits: nat)
    requires a < Two(bits) && low <= bits
    ensures Two(low) <= Two(bits) && BitAnd(a, Two(bits) - Two(low)) == a - a % Two(low)
  {
    if low == 0 {
      AndAll(a, bits);
    } else {
      AndHigh(a / 2, low - 1, bits - 1);
      HalfRemainder(a, Two(low - 1));
      AndEven(a, Two(bits - 1) - Two(low - 1));
    }
  }

  lemma {:induction false} AndEven(a: nat, b: nat)
    ensures BitAnd(a, 2 * b) == 2 * BitAnd(a / 2, b)
  {
  }

  lemma {:induction false} TwoOfWidth()
    ensures Two(32) == 0x1_0000_0000 && Two(64) == ADDRESS_SPACE
  {
    assert Two(8) == 0x100;
    assert Two(16) == 0x1_0000;
    assert Two(24) == 0x100_0000;
    assert Two(32) == 0x1_0000_0000;
    assert Two(40) == 0x100_0000_0000;
    assert Two(48) == 0x1_0000_0000_0000;
    assert Two(56) == 0x100_0000_0000_0000;
  }

  /** The operator @ rounds down to a multiple of a power of two. */
  lemma {:induction false} AlignRoundsDown(a: nat, bits: nat, m: Modulus)
    requires a < m && Two(bits) < m
    ensures Applied("@", a, Two(bits), m) == Some(a - a % Two(bits))
  {
    TwoOfWidth();
    hide Two;
    var width := if m == ADDRESS_SPACE then 64 else 32;
    if bits > width {
      TwoGrows(width, bits);
    }
    AndHigh(a, bits, width);
  }

  lemma {:induction false} TwoGrows(a: nat, b: nat)
    requires a <= b
    ensures Two(a) <= Two(b)
  {
    if a < b {
      TwoGrows(a, b - 1);
    }
  }
}
