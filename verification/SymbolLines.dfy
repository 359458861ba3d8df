/**
 Which lines of a symbol file matter for the tables of call frame information: those that start with
 STACK, as long as the loader does not give up.
 */
module SymbolLines {
  import opened OrderedKeys
  import opened RangeMaps
  import opened SourceLineResolver
  import opened SymbolParsing
  import opened Words

  /** The lines that start with STACK, in their order. */
  function StackLines(lines: seq<string>): seq<string> {
    if lines == [] then [] else (if STACK <= lines[0] then [lines[0]] else []) + StackLines(lines[1..])
  }

  /** All lines entered, however many errors there are. */
  ghost function After(loader: Loader, lines: seq<string>): (r: Loader)
    requires Disjoint(loader.tables.initial)
    ensures Disjoint(r.tables.initial)
    decreases |lines|
  {
    if lines == [] then loader else After(EnterLine(loader, lines[0]).loader, lines[1..])
  }

  /** How many of the lines are wrong. */
  ghost function ErrorsIn(loader: Loader, lines: seq<string>): nat
    requires Disjoint(loader.tables.initial)
    decreases |lines|
  {
    if lines == [] then 0
    else
      var read := EnterLine(loader, lines[0]);
      (if read.ok then 0 else 1) + ErrorsIn(read.loader, lines[1..])
  }

  lemma {:induction false} AfterBoth(loader: Loader, a: seq<string>, b: seq<string>)
    requires Disjoint(loader.tables.initial)
    ensures After(loader, a + b) == After(After(loader, a), b)
    ensures ErrorsIn(loader, a + b) == ErrorsIn(loader, a) + ErrorsIn(After(loader, a), b)
    decreases |a|
  {
    hide EnterLine, Disjoint;
    if a == [] {
      assert a + b == b;
    } else {
      assert (a + b)[1..] == a[1..] + b;
      AfterBoth(EnterLine(loader, a[0]).loader, a[1..], b);
    }
  }

  lemma {:induction false} StackLinesBoth(a: seq<string>, b: seq<string>)
    ensures StackLines(a + b) == StackLines(a) + StackLines(b)
  {
    if a == [] {
      assert a + b == b;
    } else {
      assert (a + b)[1..] == a[1..] + b;
      StackLinesBoth(a[1..], b);
    }
  }

  /** The loader reads all lines up to the one with which there are too many errors. */
  lemma {:induction false} LinesRead(loader: Loader, lines: seq<string>, errors: nat) returns (n: nat)
    requires Disjoint(loader.tables.initial) && errors <= MAX_ERRORS
    ensures n <= |lines| && EnterLines(loader, lines, errors) == After(loader, lines[..n])
    ensures n == |lines| || errors + ErrorsIn(loader, lines[..n]) > MAX_ERRORS
    ensures forall m: nat :: m < n ==> errors + ErrorsIn(loader, lines[..m]) <= MAX_ERRORS
    decreases |lines|
  {
    hide EnterLine, Disjoint;
    if lines == [] {
      n := 0;
    } else {
      EnterOneLine(loader, lines, errors);
      hide EnterLines;
      var read := EnterLine(loader, lines[0]);
      var errors' := if read.ok then errors else errors + 1;
      if errors' > MAX_ERRORS {
        n := 1;
      } else {
        n := LinesRead(read.loader, lines[1..], errors');
        n := n + 1;
      }
      forall m: nat | 0 < m <= n ensures lines[..m][0] == lines[0] && lines[..m][1..] == lines[1..][..m - 1] {
      }
    }
  }

  /** Lines that do not start with STACK leave the tables alone. */
  lemma {:induction false} OnlyStackMatters(loader: Loader, loader': Loader, line: string)
    requires Disjoint(loader.tables.initial) && loader.tables == loader'.tables
    ensures STACK <= line ==> EnterLine(loader, line).loader.tables == EnterLine(loader', line).loader.tables
    ensures !(STACK <= line) ==> EnterLine(loader, line).loader.tables == loader.tables
  {
    hide EnterStack, Disjoint, FileOf, FunctionOf, LineOf, PublicOf;
    assert FILE[0] == 'F' && STACK[0] == 'S';
  }

  lemma {:induction false} TablesOfStackLines(loader: Loader, loader': Loader, lines: seq<string>)
    requires Disjoint(loader.tables.initial) && loader.tables == loader'.tables
    ensures After(loader, lines).tables == After(loader', StackLines(lines)).tables
    decreases |lines|
  {
    hide EnterLine, Disjoint;
    if lines != [] {
      var line := lines[0];
      OnlyStackMatters(loader, loader', line);
      if STACK <= line {
        assert StackLines(lines)[1..] == StackLines(lines[1..]);
        TablesOfStackLines(EnterLine(loader, line).loader, EnterLine(loader', line).loader, lines[1..]);
      } else {
        assert StackLines(lines) == StackLines(lines[1..]);
        TablesOfStackLines(EnterLine(loader, line).loader, loader', lines[1..]);
      }
    }
  }

  /**
   Other lines may be put in or taken out anywhere, and however many: as long as there are not too many
   errors, the tables are those of the lines that start with STACK.
   */
  lemma {:induction false} OtherLinesDoNotMatter(loader: Loader, loader': Loader, a: seq<string>,
      b: seq<string>, errors: nat, errors': nat)
    requires Disjoint(loader.tables.initial) && loader.tables == loader'.tables && StackLines(a) == StackLines(b)
    requires errors + ErrorsIn(loader, a) <= MAX_ERRORS && errors' + ErrorsIn(loader', b) <= MAX_ERRORS
    ensures EnterLines(loader, a, errors).tables == EnterLines(loader', b, errors').tables
  {
    hide EnterLines, ErrorsIn, After, StackLines, Disjoint;
    AllLinesRead(loader, a, errors);
    AllLinesRead(loader', b, errors');
    TablesOfStackLines(loader, loader, a);
    TablesOfStackLines(loader', loader, b);
  }

  lemma {:induction false} AllLinesRead(loader: Loader, lines: seq<string>, errors: nat)
    requires Disjoint(loader.tables.initial) && errors + ErrorsIn(loader, lines) <= MAX_ERRORS
    ensures EnterLines(loader, lines, errors) == After(loader, lines)
  {
    hide EnterLines, ErrorsIn, After, Disjoint;
    var n := LinesRead(loader, lines, errors);
    assert lines[..n] + lines[n..] == lines;
    AfterBoth(loader, lines[..n], lines[n..]);
    assert n == |lines| ==> lines[..n] == lines;
  }

  // ----- lines without errors

  /** None of the lines is wrong, and they lead from one state to the other. */
  ghost predicate Clear(loader: Loader, lines: seq<string>, loader': Loader)
    requires Disjoint(loader.tables.initial)
  {
    ErrorsIn(loader, lines) == 0 && After(loader, lines) == loader'
  }

  lemma {:induction false} ClearNone(loader: Loader)
    requires Disjoint(loader.tables.initial)
    ensures Clear(loader, [], loader)
  {
  }

  lemma {:induction false} ClearOne(loader: Loader, line: string)
    requires Disjoint(loader.tables.initial) && EnterLine(loader, line).ok
    ensures Clear(loader, [line], EnterLine(loader, line).loader)
  {
    hide EnterLine, Disjoint;
    assert [line][1..] == [];
    var next := EnterLine(loader, line).loader;
    assert After(next, []) == next && ErrorsIn(next, []) == 0;
  }

  lemma {:induction false} ClearBoth(loader: Loader, a: seq<string>, middle: Loader, b: seq<string>, loader': Loader)
    requires Disjoint(loader.tables.initial) && Disjoint(middle.tables.initial)
    requires Clear(loader, a, middle) && Clear(middle, b, loader')
    ensures Clear(loader, a + b, loader')
  {
    hide After, ErrorsIn, Disjoint;
    AfterBoth(loader, a, b);
  }
}
