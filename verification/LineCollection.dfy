/**
 Where the functions and lines of the sweep come from: `DwarfLineToModule` collecting line records
 from a DWARF line program, and `DwarfCUToModule::FuncHandler::Finish` recording functions.
 */
module LineCollection {
  import opened Words
  import opened Coverage
  import opened LineSweep

  type Int32 = n: int | -0x8000_0000 <= n < 0x8000_0000

  type UInt32 = n: int | 0 <= n < 0x1_0000_0000

  /** One callback of the line program reader. */
  datatype Call =
    | DefineFile(fileNumber: Int32, name: string)
    | AddLine(address: Address, length: Address, file: UInt32, line: UInt32)

  /** File numbers index the table as unsigned 32-bit integers. */
  function TableKey(fileNumber: int): UInt32 {
    fileNumber % 0x1_0000_0000
  }

  // ----- which lines should be kept, stated on the whole sequence of calls

  predicate IsLine(c: Call) {
    c.AddLine? && c.length != 0
  }

  /** The end of a line, cut off at the end of the address space. */
  function LineEnd(c: Call): int
    requires c.AddLine?
  {
    Min(c.address + c.length, ADDRESS_SPACE)
  }

  /** p is the last line of non-zero length before i. */
  ghost predicate Precedes(calls: seq<Call>, p: nat, i: nat)
    requires i < |calls|
  {
    p < i && IsLine(calls[p]) && forall k :: p < k < i ==> !IsLine(calls[k])
  }

  /** Line i starts at address zero, or where the omitted line just before it ends. */
  ghost predicate Omitted(calls: seq<Call>, i: nat)
    requires i < |calls|
    decreases i
  {
    && IsLine(calls[i])
    && (calls[i].address == 0
        || exists p: nat :: p < i && Precedes(calls, p, i) && Omitted(calls, p)
                     && LineEnd(calls[p]) == calls[i].address)
  }

  /** The number the next file without a number of its own gets, less one. */
  function HighestNumber(calls: seq<Call>): int {
    if calls == [] then -1 else
    var highest, c := HighestNumber(calls[..|calls| - 1]), calls[|calls| - 1];
    if c.AddLine? then highest
    else if c.fileNumber == -1 then highest + 1
    else Max(highest, c.fileNumber)
  }

  /** The file table after the calls. */
  function Files(calls: seq<Call>): map<int, string> {
    if calls == [] then map[] else
    var before, c := calls[..|calls| - 1], calls[|calls| - 1];
    if c.AddLine? then Files(before)
    else Files(before)[TableKey(if c.fileNumber == -1 then HighestNumber(before) + 1 else c.fileNumber) := c.name]
  }

  ghost predicate Kept(calls: seq<Call>, i: nat)
    requires i < |calls|
  {
    IsLine(calls[i]) && !Omitted(calls, i) && calls[i].file in Files(calls[..i])
  }

  /** The record for line i. */
  ghost function RecordOf(calls: seq<Call>, i: nat): (l: Line)
    requires i < |calls| && Kept(calls, i)
    ensures Proper(LineRange(l)) && l.address != 0
  {
    Line(calls[i].address, LineEnd(calls[i]) - calls[i].address, Files(calls[..i])[calls[i].file], calls[i].line)
  }

  /** The records of the first n calls, in order. */
  ghost function KeptLines(calls: seq<Call>, n: nat): (ls: seq<Line>)
    requires n <= |calls|
    ensures forall k :: 0 <= k < |ls| ==> Proper(LineRange(ls[k])) && ls[k].address != 0
  {
    if n == 0 then [] else KeptLines(calls, n - 1) + (if Kept(calls, n - 1) then [RecordOf(calls, n - 1)] else [])
  }

  /** The last line of the first n calls, if it was omitted: where it ends. */
  ghost predicate RunEnds(calls: seq<Call>, n: nat, end: int)
    requires n <= |calls|
  {
    exists p: nat :: p < n && EndsRun(calls, n, p, end)
  }

  ghost predicate EndsRun(calls: seq<Call>, n: nat, p: nat, end: int)
    requires p < n <= |calls|
  {
    IsLine(calls[p]) && (forall k :: p < k < n ==> !IsLine(calls[k])) && Omitted(calls, p) && LineEnd(calls[p]) == end
  }

  lemma {:induction false} PrecedesPrefix(calls: seq<Call>, n: nat, p: nat, i: nat)
    requires i < n <= |calls|
    ensures Precedes(calls[..n], p, i) <==> Precedes(calls, p, i)
  {
  }

  lemma {:induction false} OmittedPrefix(calls: seq<Call>, n: nat, i: nat)
    requires i < n <= |calls|
    ensures Omitted(calls[..n], i) <==> Omitted(calls, i)
    decreases i
  {
    forall p: nat | p < i
      ensures Precedes(calls[..n], p, i) <==> Precedes(calls, p, i)
    {
      PrecedesPrefix(calls, n, p, i);
    }
    hide Precedes;
    forall p: nat | p < i
      ensures Omitted(calls[..n], p) <==> Omitted(calls, p)
    {
      OmittedPrefix(calls, n, p);
    }
  }

  lemma {:induction false} KeptPrefix(calls: seq<Call>, n: nat, k: nat)
    requires k <= n <= |calls|
    ensures KeptLines(calls[..n], k) == KeptLines(calls, k)
  {
    if k > 0 {
      KeptPrefix(calls, n, k - 1);
      OmittedPrefix(calls, n, k - 1);
      assert calls[..n][..k - 1] == calls[..k - 1];
    }
  }

  /** One more call: what changes about the last run of omitted lines and the kept lines. */
  lemma {:induction false} CallsGrow(before: seq<Call>, c: Call)
    ensures var calls := before + [c];
      && calls[..|before|] == before
      && KeptLines(calls, |before|) == KeptLines(before, |before|)
      && (IsLine(c) ==> (Omitted(calls, |before|) <==> c.address == 0 || RunEnds(before, |before|, c.address)))
      && (forall a :: RunEnds(calls, |calls|, a) <==>
            if IsLine(c) then Omitted(calls, |before|) && LineEnd(c) == a else RunEnds(before, |before|, a))
  {
    hide Omitted, Precedes, EndsRun, KeptLines;
    var calls, n, m := before + [c], |before|, |before + [c]|;
    assert calls[..n] == before;
    KeptPrefix(calls, n, n);
    if IsLine(c) {
      OmittedLast(before, c);
    }
    forall a
      ensures RunEnds(calls, m, a) <==>
                if IsLine(c) then Omitted(calls, n) && LineEnd(c) == a else RunEnds(before, n, a)
    {
      forall p: nat | p <= n
        ensures EndsRun(calls, m, p, a)
             == (if p == n then IsLine(c) && Omitted(calls, n) && LineEnd(c) == a
                 else !IsLine(c) && EndsRun(before, n, p, a))
      {
        EndsRunGrows(before, c, p, a);
      }
      EndsRunGrows(before, c, n, a);
    }
  }

  lemma {:induction false} EndsRunGrows(before: seq<Call>, c: Call, p: nat, a: int)
    requires p <= |before|
    ensures var calls, n, m := before + [c], |before|, |before + [c]|;
      EndsRun(calls, m, p, a)
        == (if p == n then IsLine(c) && Omitted(calls, n) && LineEnd(c) == a
            else !IsLine(c) && EndsRun(before, n, p, a))
  {
    hide Omitted;
    var calls, n, m := before + [c], |before|, |before + [c]|;
    assert calls[n] == c;
    if p < n {
      assert calls[..n] == before;
      OmittedPrefix(calls, n, p);
      assert forall k :: p < k < n ==> calls[k] == before[k];
      assert EndsRun(calls, m, p, a) ==> !IsLine(calls[n]);
      assert EndsRun(calls, m, p, a) ==> forall k :: p < k < n ==> !IsLine(calls[k]);
    }
  }

  lemma {:induction false} OmittedLast(before: seq<Call>, c: Call)
    requires IsLine(c)
    ensures Omitted(before + [c], |before|) <==> c.address == 0 || RunEnds(before, |before|, c.address)
  {
    var calls, n := before + [c], |before|;
    forall p: nat | p < n
      ensures EndsRun(before, n, p, c.address)
           <==> Precedes(calls, p, n) && Omitted(calls, p) && LineEnd(calls[p]) == c.address
    {
      assert calls[..n] == before;
      OmittedPrefix(calls, n, p);
    }
  }

  // ----- what is kept, in terms of the calls alone

  /**
   The numbers that calls of DefineFile give: each its own, or for -1 one more than the greatest number
   given before it, or zero if none was.  What stands at the places of other calls does not matter.
   */
  ghost predicate IsNumbering(calls: seq<Call>, numbers: seq<int>) {
    && |numbers| == |calls|
    && forall i :: 0 <= i < |calls| && calls[i].DefineFile? ==>
         if calls[i].fileNumber != -1 then numbers[i] == calls[i].fileNumber else IsNext(calls, numbers, i)
  }

  ghost predicate IsNext(calls: seq<Call>, numbers: seq<int>, i: nat)
    requires i < |calls| == |numbers|
  {
    && numbers[i] >= 0
    && (forall j :: 0 <= j < i && calls[j].DefineFile? ==> numbers[j] < numbers[i])
    && (numbers[i] > 0 ==> exists j :: 0 <= j < i && calls[j].DefineFile? && numbers[j] == numbers[i] - 1)
  }

  /** Call d gives the file number f of a line, which is unsigned. */
  ghost predicate Gives(calls: seq<Call>, numbers: seq<int>, d: nat, f: UInt32)
    requires d < |calls| == |numbers|
  {
    calls[d].DefineFile? && exists wraps: int :: numbers[d] == f + wraps * 0x1_0000_0000
  }

  /** Call d is the last before i that gives f. */
  ghost predicate GivesLast(calls: seq<Call>, numbers: seq<int>, d: nat, i: nat, f: UInt32)
    requires d < i <= |calls| == |numbers|
  {
    Gives(calls, numbers, d, f) && forall e :: d < e < i ==> !Gives(calls, numbers, e, f)
  }

  /** Line i is not empty, not in an omitted run, and its file has been defined. */
  ghost predicate ShouldKeep(calls: seq<Call>, numbers: seq<int>, i: nat)
    requires i < |calls| == |numbers|
  {
    && calls[i].AddLine? && calls[i].length != 0 && !Omitted(calls, i)
    && exists d: nat :: d < i && Gives(calls, numbers, d, calls[i].file)
  }

  /** The record has the file defined last under the number, and ends with the address space at the latest. */
  ghost predicate IsRecordOf(calls: seq<Call>, numbers: seq<int>, i: nat, l: Line)
    requires i < |calls| == |numbers|
  {
    var c := calls[i];
    && c.AddLine? && l.address == c.address && l.number == c.line
    && l.size == (if c.address + c.length <= ADDRESS_SPACE then c.length else ADDRESS_SPACE - c.address)
    && exists d: nat :: d < i && GivesLast(calls, numbers, d, i, c.file) && l.file == calls[d].name
  }

  /**
   The lines are the records of just those of the first n calls that should be kept, which are the calls
   at `at`, in their order.
   */
  ghost predicate AreRecords(calls: seq<Call>, numbers: seq<int>, n: nat, at: seq<nat>, ls: seq<Line>)
    requires n <= |calls| == |numbers|
  {
    && |at| == |ls|
    && (forall k :: 0 <= k < |at| ==> at[k] < n && IsRecordOf(calls, numbers, at[k], ls[k]))
    && (forall j, k :: 0 <= j < k < |at| ==> at[j] < at[k])
    && (forall i :: 0 <= i < n ==> (i in at <==> ShouldKeep(calls, numbers, i)))
  }

  lemma {:induction false} HighestIsGreatest(calls: seq<Call>, numbers: seq<int>, n: nat)
    requires IsNumbering(calls, numbers) && n <= |calls|
    ensures HighestNumber(calls[..n]) >= -1
    ensures forall j :: 0 <= j < n && calls[j].DefineFile? ==> numbers[j] <= HighestNumber(calls[..n])
    ensures HighestNumber(calls[..n]) == -1
            || exists j :: 0 <= j < n && calls[j].DefineFile? && numbers[j] == HighestNumber(calls[..n])
    decreases n, 0
  {
    if n > 0 {
      HighestIsGreatest(calls, numbers, n - 1);
      assert calls[..n][..n - 1] == calls[..n - 1];
      if calls[n - 1].DefineFile? {
        NumberGiven(calls, numbers, n - 1);
      }
    }
  }

  lemma {:induction false} NumberGiven(calls: seq<Call>, numbers: seq<int>, i: nat)
    requires IsNumbering(calls, numbers) && i < |calls| && calls[i].DefineFile?
    ensures numbers[i] == if calls[i].fileNumber == -1 then HighestNumber(calls[..i]) + 1 else calls[i].fileNumber
    decreases i, 1
  {
    HighestIsGreatest(calls, numbers, i);
  }
  /** Numbers that are the same modulo 2^32 have the same place in the table. */
  lemma {:induction false} KeyMeans(number: int, f: UInt32)
    ensures TableKey(number) == f <==> exists wraps: int :: number == f + wraps * 0x1_0000_0000
  {
    if TableKey(number) == f {
      assert number == f + number / 0x1_0000_0000 * 0x1_0000_0000;
    }
  }

  /** One call more: it gives f or leaves the place of f in the table as it is. */
  lemma {:induction false} FilesGrow(calls: seq<Call>, numbers: seq<int>, i: nat, f: UInt32)
    requires IsNumbering(calls, numbers) && i < |calls| == |numbers|
    ensures var before, after := Files(calls[..i]), Files(calls[..i + 1]);
      if Gives(calls, numbers, i, f) then f in after && after[f] == calls[i].name
      else (f in after <==> f in before) && (f in before ==> after[f] == before[f])
  {
    assert calls[..i + 1][..i] == calls[..i];
    if calls[i].DefineFile? {
      NumberGiven(calls, numbers, i);
      KeyMeans(numbers[i], f);
    }
    hide IsNumbering, TableKey;
  }

  /** The table holds for each number the name given last under it. */
  lemma {:induction false} FilesHoldNames(calls: seq<Call>, numbers: seq<int>, n: nat, f: UInt32)
    requires IsNumbering(calls, numbers) && n <= |calls| == |numbers|
    ensures f in Files(calls[..n]) <==> exists d: nat :: d < n && Gives(calls, numbers, d, f)
    ensures f in Files(calls[..n]) ==>
      exists d: nat :: d < n && GivesLast(calls, numbers, d, n, f) && Files(calls[..n])[f] == calls[d].name
  {
    if n == 0 {
      assert Files(calls[..n]) == map[];
    } else {
      hide IsNumbering, Files, Gives;
      FilesHoldNames(calls, numbers, n - 1, f);
      FilesGrow(calls, numbers, n - 1, f);
      var before := Files(calls[..n - 1]);
      if Gives(calls, numbers, n - 1, f) {
        assert GivesLast(calls, numbers, n - 1, n, f);
      } else if f in before {
        var d: nat :| d < n - 1 && GivesLast(calls, numbers, d, n - 1, f) && before[f] == calls[d].name;
        assert GivesLast(calls, numbers, d, n, f);
      }
    }
  }

  lemma {:induction false} KeptAsShould(calls: seq<Call>, numbers: seq<int>, i: nat)
    requires IsNumbering(calls, numbers) && i < |calls| == |numbers|
    ensures Kept(calls, i) <==> ShouldKeep(calls, numbers, i)
    ensures Kept(calls, i) ==> IsRecordOf(calls, numbers, i, RecordOf(calls, i))
  {
    hide IsNumbering, Files, Gives, GivesLast, Omitted;
    if calls[i].AddLine? {
      FilesHoldNames(calls, numbers, i, calls[i].file);
    }
  }

  /**
   The collected lines, in terms of the calls alone: a line that is not empty is kept iff it is not in
   an omitted run and a call before it gave its file number, and it is recorded under the name given last.
   */
  lemma {:induction false} LinesAreCollected(calls: seq<Call>, numbers: seq<int>, n: nat)
    requires IsNumbering(calls, numbers) && n <= |calls| == |numbers|
    ensures exists at :: AreRecords(calls, numbers, n, at, KeptLines(calls, n))
  {
    hide IsNumbering, ShouldKeep, IsRecordOf, Kept, RecordOf;
    if n == 0 {
      var none: seq<nat> := [];
      assert AreRecords(calls, numbers, 0, none, KeptLines(calls, 0));
    } else {
      LinesAreCollected(calls, numbers, n - 1);
      var before := KeptLines(calls, n - 1);
      var at :| AreRecords(calls, numbers, n - 1, at, before);
      var last: nat := n - 1;
      KeptAsShould(calls, numbers, last);
      if Kept(calls, last) {
        assert KeptLines(calls, n) == before + [RecordOf(calls, last)];
        assert AreRecords(calls, numbers, n, at + [last], KeptLines(calls, n));
      } else {
        assert KeptLines(calls, n) == before;
        assert AreRecords(calls, numbers, n, at, KeptLines(calls, n));
      }
    }
  }

  /** Every series of calls has a numbering. */
  lemma {:induction false} NumberingExists(calls: seq<Call>) returns (numbers: seq<int>)
    ensures IsNumbering(calls, numbers)
  {
    if calls == [] {
      numbers := [];
    } else {
      var n: nat := |calls| - 1;
      var before := NumberingExists(calls[..n]);
      HighestIsGreatest(calls[..n], before, n);
      assert calls[..n][..n] == calls[..n];
      var next := HighestNumber(calls[..n]) + 1;
      numbers := before + [if calls[n].DefineFile? && calls[n].fileNumber != -1 then calls[n].fileNumber else next];
      forall i | 0 <= i < |calls| && calls[i].DefineFile? && calls[i].fileNumber == -1
        ensures IsNext(calls, numbers, i)
      {
        if i < n {
          assert IsNext(calls[..n], before, i);
          assert forall j :: 0 <= j < i ==> calls[..n][j] == calls[j] && before[j] == numbers[j];
        }
      }
      forall i | 0 <= i < |calls| && calls[i].DefineFile? && calls[i].fileNumber != -1
        ensures numbers[i] == calls[i].fileNumber
      {
        if i < n {
          assert calls[..n][i] == calls[i];
        }
      }
    }
  }

  // ----- the collector

  /** `DwarfLineToModule`, with the calls it has received so far. */
  class Collector {
    var files: map<int, string>
    var highestFileNumber: int
    var omittedLineEnd: Address
    var lines: seq<Line>
    ghost var calls: seq<Call>

    /**
     The field omittedLineEnd is the end of the omitted line just received, and zero stands both for
     there being none and for that line ending with the address space.
     */
    ghost predicate Valid()
      reads this
    {
      && files == Files(calls)
      && highestFileNumber == HighestNumber(calls)
      && lines == KeptLines(calls, |calls|)
      && (forall a: Address :: a != 0 ==> (RunEnds(calls, |calls|, a) <==> omittedLineEnd == a))
    }

    /** What the collector holds, in terms of the calls it has received. */
    lemma Collected(numbers: seq<int>)
      requires Valid() && IsNumbering(calls, numbers)
      ensures exists at :: AreRecords(calls, numbers, |calls|, at, lines)
    {
      LinesAreCollected(calls, numbers, |calls|);
    }

    constructor ()
      ensures Valid() && calls == []
    {
      files, highestFileNumber, omittedLineEnd, lines, calls := map[], -1, 0, [], [];
    }

    method DefineFile(fileNumber: Int32, name: string)
      requires Valid()
      modifies this
      ensures Valid() && calls == old(calls) + [Call.DefineFile(fileNumber, name)]
    {
      var number: int := fileNumber;
      if number == -1 {
        highestFileNumber := highestFileNumber + 1;
        number := highestFileNumber;
      } else if number > highestFileNumber {
        highestFileNumber := number;
      }
      files := files[TableKey(number) := name];
      CallsGrow(calls, Call.DefineFile(fileNumber, name));
      calls := calls + [Call.DefineFile(fileNumber, name)];
    }

    method AddLine(address: Address, length: Address, file: UInt32, line: UInt32)
      requires Valid()
      modifies this
      ensures Valid() && calls == old(calls) + [Call.AddLine(address, length, file, line)]
    {
      hide Omitted, RunEnds;
      CallsGrow(calls, Call.AddLine(address, length, file, line));
      calls := calls + [Call.AddLine(address, length, file, line)];
      if length == 0 {
        return;
      }
      var size := length;
      if WrapAdd(address, length) < address {
        size := WrapSub(0, address);
      }
      if address == 0 || address == omittedLineEnd {
        omittedLineEnd := WrapAdd(address, size);
        return;
      } else {
        omittedLineEnd := 0;
      }
      if file !in files {
        return;
      }
      lines := lines + [Line(address, size, files[file], line)];
    }
  }

  // ----- what the sweep is given

  /** In whatever order the collected lines are sorted, they meet what the sweep requires of lines. */
  lemma {:induction false} CollectedLinesAreProper(calls: seq<Call>, sorted: seq<Line>)
    requires multiset(sorted) == multiset(KeptLines(calls, |calls|))
    ensures AllProper(LineRanges(sorted))
    ensures forall l <- sorted :: l.address != 0
  {
    var kept := KeptLines(calls, |calls|);
    forall k | 0 <= k < |sorted|
      ensures Proper(LineRange(sorted[k])) && sorted[k].address != 0
    {
      assert sorted[k] in multiset(sorted);
      assert sorted[k] in kept;
    }
  }

  /**
   `FuncHandler::Finish`: a function whose DIE gave it a non-empty range is recorded, unless it
   starts at address zero.  The high address may be given as an offset from the low one.
   */
  method FinishFunction(functions: seq<Function>, name: string, lowPc: Address, highPc: Address, highIsAddress: bool)
    returns (result: seq<Function>)
    requires AllProper(FunctionRanges(functions))
    ensures AllProper(FunctionRanges(result))
    ensures var end := if highIsAddress then highPc else WrapAdd(highPc, lowPc);
      if 0 < lowPc < end
      then && |result| == |functions| + 1 && result[..|functions|] == functions
           && FunctionRanges(result)[|functions|] == Range(lowPc, end)
           && result[|functions|].lines == []
           && result[|functions|].name == (if name != "" then name else "<name omitted>")
      else result == functions
  {
    var high := highPc;
    if !highIsAddress {
      high := WrapAdd(high, lowPc);
    }
    result := functions;
    if lowPc < high {
      var func := new Function(if name != "" then name else "<name omitted>", lowPc, high - lowPc);
      if func.address != 0 {
        result := result + [func];
        forall i | 0 <= i < |result|
          ensures Proper(FunctionRanges(result)[i])
        {
          assert i < |functions| ==> FunctionRanges(result)[i] == FunctionRanges(functions)[i];
        }
      }
    }
  }
}
