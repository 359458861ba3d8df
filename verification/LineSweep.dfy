/**
 `DwarfCUToModule::AssignLinesToFunctions`: one pass over a compilation unit's functions and lines,
 both sorted by address, giving every function the parts of lines that lie inside it.
 */
module LineSweep {
  import opened Words
  import opened Coverage

  /** `Module::Function`.  The size is fixed before the pass; the pass only appends to `lines`. */
  class Function {
    const name: string
    const address: Address
    const size: Address
    var lines: seq<Line>

    constructor (name: string, address: Address, size: Address)
      ensures this.name == name && this.address == address && this.size == size && lines == []
    {
      this.name, this.address, this.size := name, address, size;
      lines := [];
    }
  }

  /** `DwarfCUToModule::WarningReporter`, keeping the two warnings the pass gives. */
  class Reporter {
    var functions: seq<Function>
    var lines: seq<Line>

    constructor ()
      ensures functions == [] && lines == []
    {
      functions, lines := [], [];
    }

    method UncoveredFunction(f: Function)
      modifies this`functions
      ensures functions == old(functions) + [f]
    {
      functions := functions + [f];
    }

    method UncoveredLine(l: Line)
      modifies this`lines
      ensures lines == old(lines) + [l]
    {
      lines := lines + [l];
    }
  }

  function FunctionRanges(fs: seq<Function>): (rs: seq<Range>)
    ensures |rs| == |fs|
    ensures forall i :: 0 <= i < |fs| ==> rs[i] == Range(fs[i].address, fs[i].address + fs[i].size)
  {
    seq(|fs|, i requires 0 <= i < |fs| => Range(fs[i].address, fs[i].address + fs[i].size))
  }

  /** `within`: one unsigned subtraction and comparison decide membership. */
  predicate Within(start: Address, size: Address, address: Address) {
    WrapSub(address, start) < size
  }

  lemma {:induction false} WithinIsContains(start: Address, size: Address, address: Address)
    ensures start + size <= ADDRESS_SPACE ==>
              (Within(start, size, address) <==> Contains(Range(start, start + size), address))
  {
  }

  // ----- how far the pass has come

  /** The iterators name the first function and the first line that contain or follow cur. */
  ghost predicate AtFront(rs: seq<Range>, k: nat, cur: int) {
    && k <= |rs|
    && (k < |rs| ==> cur < rs[k].hi)
    && (forall i :: 0 <= i < k ==> rs[i].hi <= cur)
  }

  ghost predicate Frontier(fr: seq<Range>, lr: seq<Range>, fi: nat, li: nat, cur: int) {
    && AtFront(fr, fi, cur)
    && AtFront(lr, li, cur)
    // cur is a transition: inside a function and a line, it is the first byte of their intersection
    && (fi < |fr| && li < |lr| && fr[fi].lo <= cur && lr[li].lo <= cur
        ==> cur == Max(fr[fi].lo, lr[li].lo))
  }

  /** What the remembered positions -1, 0, 1, ... of the last citations and of the last use say. */
  ghost predicate Memory(fr: seq<Range>, lr: seq<Range>, fi: nat, li: nat, cur: int, functionCited: int,
      lineCited: int, lineUsed: int)
  {
    && -1 <= functionCited <= fi
    && -1 <= lineCited <= li
    && -1 <= lineUsed <= li
    && (fi == |fr| ==> functionCited < fi)
    && (li == |lr| ==> lineCited < li && lineUsed < li)
    && (fi < |fr| ==> (functionCited == fi <==> HasGap(fr[fi], lr, cur)))
    && (li < |lr| ==> (lineCited == li <==> HasLineGap(lr[li], fr, cur)))
    && (li < |lr| ==> (lineUsed == li <==> UsedBelow(lr[li], fr, cur)))
  }

  ghost predicate UsedBelow(l: Range, fr: seq<Range>, cur: int) {
    exists i :: 0 <= i < |fr| && Meet(fr[i], Below(l, cur))
  }

  // ----- what one step of the pass adds to the records

  lemma {:induction false} PieceQuiet(r: Range, l: Line, cur: int, next: int)
    requires cur <= next
    requires Max(Max(r.lo, LineRange(l).lo), cur) >= Min(Min(r.hi, LineRange(l).hi), next)
    ensures Piece(Below(r, next), l) == Piece(Below(r, cur), l)
  {
  }

  lemma {:induction false} PiecesQuiet(r: Range, ls: seq<Line>, n: nat, cur: int, next: int)
    requires n <= |ls| && cur <= next
    requires forall j :: 0 <= j < n ==>
               Max(Max(r.lo, LineRange(ls[j]).lo), cur) >= Min(Min(r.hi, LineRange(ls[j]).hi), next)
    ensures Pieces(Below(r, next), ls, n) == Pieces(Below(r, cur), ls, n)
  {
    hide Piece, Below, Max, Min;
    if n > 0 {
      PiecesQuiet(r, ls, n - 1, cur, next);
      PieceQuiet(r, ls[n - 1], cur, next);
    }
  }

  lemma {:induction false} PiecesNone(r: Range, ls: seq<Line>, k: nat, n: nat)
    requires k <= n <= |ls|
    requires forall j :: k <= j < n ==> !Meet(r, LineRange(ls[j]))
    ensures Pieces(r, ls, n) == Pieces(r, ls, k)
  {
    if k < n {
      PiecesNone(r, ls, k, n - 1);
    }
  }

  /** Just where their intersection [cur, next) begins and ends, one line adds one record. */
  lemma {:induction false} PieceGrow(r: Range, l: Line, cur: int, next: int)
    requires Proper(r) && Proper(LineRange(l))
    requires cur == Max(r.lo, l.address) && next == Min(r.hi, LineRange(l).hi) && cur < next
    ensures 0 <= cur < ADDRESS_SPACE && next - cur < ADDRESS_SPACE
    ensures Piece(Below(r, cur), l) == []
    ensures Piece(Below(r, next), l) == [Line(cur, next - cur, l.file, l.number)]
  {
  }

  lemma {:induction false} QuietBefore(r: Range, ls: seq<Line>, lr: seq<Range>, k: nat, cur: int, next: int, j: nat)
    requires lr == LineRanges(ls) && j < k < |ls| && Proper(r) && InOrder(lr)
    requires cur == Max(r.lo, lr[k].lo)
    ensures Max(Max(r.lo, LineRange(ls[j]).lo), cur) >= Min(Min(r.hi, LineRange(ls[j]).hi), next)
  {
    InOrderAt(lr, j, k);
    hide InOrder;
  }

  lemma {:induction false} NoneBehind(r: Range, ls: seq<Line>, lr: seq<Range>, k: nat, cur: int, next: int, j: nat)
    requires lr == LineRanges(ls) && k < j < |ls| && Proper(r) && InOrder(lr)
    requires next == Min(r.hi, lr[k].hi) && cur < next
    ensures !Meet(Below(r, next), LineRange(ls[j])) && !Meet(Below(r, cur), LineRange(ls[j]))
  {
    InOrderAt(lr, k, j);
    hide InOrder;
  }

  lemma {:induction false} PiecesGrow(r: Range, ls: seq<Line>, lr: seq<Range>, k: nat, cur: int, next: int)
    requires lr == LineRanges(ls) && k < |ls| && Proper(r) && Proper(lr[k]) && InOrder(lr)
    requires cur == Max(r.lo, lr[k].lo) && next == Min(r.hi, lr[k].hi) && cur < next
    ensures 0 <= cur < ADDRESS_SPACE && next - cur < ADDRESS_SPACE
    ensures Pieces(Below(r, next), ls, |ls|)
         == Pieces(Below(r, cur), ls, |ls|) + [Line(cur, next - cur, ls[k].file, ls[k].number)]
  {
    hide InOrder, Meet, Below, Max, Min, Piece;
    PieceGrow(r, ls[k], cur, next);
    forall j: nat | j < k
      ensures Max(Max(r.lo, LineRange(ls[j]).lo), cur) >= Min(Min(r.hi, LineRange(ls[j]).hi), next)
    {
      QuietBefore(r, ls, lr, k, cur, next, j);
    }
    PiecesQuiet(r, ls, k, cur, next);
    forall j: nat | k + 1 <= j < |ls|
      ensures !Meet(Below(r, next), LineRange(ls[j])) && !Meet(Below(r, cur), LineRange(ls[j]))
    {
      NoneBehind(r, ls, lr, k, cur, next, j);
    }
    PiecesNone(Below(r, cur), ls, k + 1, |ls|);
    PiecesNone(Below(r, next), ls, k + 1, |ls|);
  }

  // ----- one step of the pass, on ranges

  /** A range in rs[k], and k exists. */
  ghost predicate Covers(rs: seq<Range>, k: nat, cur: int) {
    k < |rs| && rs[k].lo <= cur
  }

  /** next is the first transition after cur. */
  ghost predicate Steps(fr: seq<Range>, lr: seq<Range>, fi: nat, li: nat, cur: int, next: int) {
    && cur < next
    && (fi < |fr| ==> next <= fr[fi].hi && (fr[fi].lo <= cur || next <= fr[fi].lo))
    && (li < |lr| ==> next <= lr[li].hi && (lr[li].lo <= cur || next <= lr[li].lo))
    && (Covers(fr, fi, cur) && Covers(lr, li, cur) ==> next == Min(fr[fi].hi, lr[li].hi))
  }

  lemma {:induction false} FrontierStep(fr: seq<Range>, lr: seq<Range>, fi: nat, li: nat, cur: int, next: int,
      fi': nat, li': nat)
    requires InOrder(fr) && InOrder(lr)
    requires Frontier(fr, lr, fi, li, cur) && Steps(fr, lr, fi, li, cur, next)
    requires fi <= fi' && AtFront(fr, fi', next) && li <= li' && AtFront(lr, li', next)
    ensures Frontier(fr, lr, fi', li', next)
  {
    InOrderAt(fr, fi, fi');
    InOrderAt(lr, li, li');
  }

  /** Every function's records up to next: only the current function may gain one. */
  lemma {:induction false} PiecesStep(fr: seq<Range>, ls: seq<Line>, lr: seq<Range>, fi: nat, li: nat, cur: int,
      next: int, i: nat)
    requires lr == LineRanges(ls) && AllProper(fr) && AllProper(lr) && InOrder(fr) && InOrder(lr)
    requires Frontier(fr, lr, fi, li, cur) && Steps(fr, lr, fi, li, cur, next) && i < |fr|
    requires i != fi || !Covers(fr, fi, cur) || !Covers(lr, li, cur)
    ensures Pieces(Below(fr[i], next), ls, |ls|) == Pieces(Below(fr[i], cur), ls, |ls|)
  {
    forall j | 0 <= j < |ls|
      ensures Max(Max(fr[i].lo, LineRange(ls[j]).lo), cur) >= Min(Min(fr[i].hi, LineRange(ls[j]).hi), next)
    {
      InOrderAt(lr, li, j);
      InOrderAt(fr, fi, i);
    }
    PiecesQuiet(fr[i], ls, |ls|, cur, next);
  }

  lemma {:induction false} GapUnchanged(r: Range, rs: seq<Range>, cur: int, next: int)
    requires cur <= next
    requires forall a :: cur <= a < next && Contains(r, a) ==> Covered(a, rs)
    ensures HasGap(r, rs, next) <==> HasGap(r, rs, cur)
  {
    if HasGap(r, rs, next) {
      var a :| Contains(r, a) && a < next && !Covered(a, rs);
      assert a < cur;
    }
    if HasGap(r, rs, cur) {
      var a :| Contains(r, a) && a < cur && !Covered(a, rs);
      assert a < next;
    }
  }

  lemma {:induction false} LineGapUnchanged(l: Range, rs: seq<Range>, cur: int, next: int)
    requires cur <= next
    requires forall a :: cur <= a < next && Contains(l, a) ==> Covered(a, rs) || Padding(l, rs, a)
    ensures HasLineGap(l, rs, next) <==> HasLineGap(l, rs, cur)
  {
    if HasLineGap(l, rs, next) {
      var a :| Contains(l, a) && a < next && !Covered(a, rs) && !Padding(l, rs, a);
      assert a < cur;
    }
    if HasLineGap(l, rs, cur) {
      var a :| Contains(l, a) && a < cur && !Covered(a, rs) && !Padding(l, rs, a);
      assert a < next;
    }
  }

  lemma {:induction false} GapKept(r: Range, rs: seq<Range>, cur: int, next: int)
    requires cur <= next
    ensures HasGap(r, rs, cur) ==> HasGap(r, rs, next)
    ensures HasLineGap(r, rs, cur) ==> HasLineGap(r, rs, next)
  {
  }

  /** The list of uncovered functions grows by the current function, if it has its first gap here. */
  lemma {:induction false} UncoveredFunctionsStep(fr: seq<Range>, lr: seq<Range>, fi: nat, cur: int, next: int)
    requires AllProper(fr) && InOrder(fr) && AtFront(fr, fi, cur) && cur < next
    requires fi < |fr| ==> next <= fr[fi].hi
    ensures UncoveredFunctions(fr, lr, next)
         == UncoveredFunctions(fr, lr, cur)
            + (if fi < |fr| && !HasGap(fr[fi], lr, cur) && HasGap(fr[fi], lr, next) then [fi] else [])
  {
    var a := seq(|fr|, i requires 0 <= i < |fr| => HasGap(fr[i], lr, cur));
    var b := seq(|fr|, i requires 0 <= i < |fr| => HasGap(fr[i], lr, next));
    forall i | 0 <= i < |fr| && i != fi
      ensures a[i] == b[i] && (fi < i ==> !a[i])
    {
      InOrderAt(fr, fi, i);
      GapUnchanged(fr[i], lr, cur, next);
    }
    if fi < |fr| {
      GapKept(fr[fi], lr, cur, next);
    }
    if fi < |fr| && a[fi] != b[fi] {
      MarkedGrow(a, b, fi);
    } else {
      assert a == b;
    }
  }

  lemma {:induction false} UncoveredLinesStep(lr: seq<Range>, fr: seq<Range>, li: nat, cur: int, next: int)
    requires AllProper(lr) && InOrder(lr) && AtFront(lr, li, cur) && cur < next
    requires li < |lr| ==> next <= lr[li].hi
    ensures UncoveredLines(lr, fr, next)
         == UncoveredLines(lr, fr, cur)
            + (if li < |lr| && !HasLineGap(lr[li], fr, cur) && HasLineGap(lr[li], fr, next) then [li] else [])
  {
    var a := seq(|lr|, j requires 0 <= j < |lr| => HasLineGap(lr[j], fr, cur));
    var b := seq(|lr|, j requires 0 <= j < |lr| => HasLineGap(lr[j], fr, next));
    forall j | 0 <= j < |lr| && j != li
      ensures a[j] == b[j] && (li < j ==> !a[j])
    {
      InOrderAt(lr, li, j);
      LineGapUnchanged(lr[j], fr, cur, next);
    }
    if li < |lr| {
      GapKept(lr[li], fr, cur, next);
    }
    if li < |lr| && a[li] != b[li] {
      MarkedGrow(a, b, li);
    } else {
      assert a == b;
    }
  }

  /** Between cur and next a byte is covered by a range of rs exactly if cur is inside rs[k]. */
  lemma {:induction false} CoveredBetween(rs: seq<Range>, k: nat, cur: int, next: int, a: int)
    requires InOrder(rs) && AtFront(rs, k, cur) && cur <= a < next
    requires k < |rs| ==> next <= rs[k].hi && (rs[k].lo <= cur || next <= rs[k].lo)
    ensures Covered(a, rs) <==> Covers(rs, k, cur)
  {
    if Covers(rs, k, cur) {
      assert Contains(rs[k], a);
    }
    if Covered(a, rs) {
      var i :| 0 <= i < |rs| && Contains(rs[i], a);
      InOrderAt(rs, k, i);
      assert i == k;
    }
  }

  /** The test for padding at the end of a line, in terms of what the pass remembers. */
  ghost predicate LooksLikePadding(fr: seq<Range>, lr: seq<Range>, fi: nat, li: nat, lineUsed: int)
  {
    fi < |fr| && li < |lr| && li == lineUsed && fr[fi].lo == lr[li].hi
  }

  lemma {:induction false} PaddingLooksLike(fr: seq<Range>, lr: seq<Range>, fi: nat, li: nat, cur: int,
      next: int, lineUsed: int, a: int)
    requires AllProper(fr) && InOrder(fr) && li < |lr|
    requires AtFront(fr, fi, cur) && lr[li].lo <= cur < lr[li].hi && !Covers(fr, fi, cur) && cur <= a
    requires UsedBelow(lr[li], fr, cur) ==> lineUsed == li
    requires Padding(lr[li], fr, a) && (fi < |fr| ==> next <= fr[fi].lo) && a < next
    ensures LooksLikePadding(fr, lr, fi, li, lineUsed)
  {
    var l := lr[li];
    hide InOrder;
    var i :| 0 <= i < |fr| && fr[i].lo == l.hi;
    InOrderAt(fr, fi, i);
    assert fi <= i;
    assert !Meet(fr[fi], l);
    assert fr[fi].lo == l.hi;
    var u :| 0 <= u < |fr| && Meet(fr[u], l);
    InOrderAt(fr, fi, u);
    assert Meet(fr[u], Below(l, cur));
  }

  lemma {:induction false} LooksLikeIsPadding(fr: seq<Range>, lr: seq<Range>, fi: nat, li: nat, cur: int,
      lineUsed: int, a: int)
    requires AllProper(fr) && InOrder(fr) && AtFront(fr, fi, cur) && cur <= a && li < |lr|
    requires LooksLikePadding(fr, lr, fi, li, lineUsed) && UsedBelow(lr[li], fr, cur)
    ensures Padding(lr[li], fr, a)
  {
    var l := lr[li];
    hide InOrder;
    var u :| 0 <= u < |fr| && Meet(fr[u], Below(l, cur));
    assert Meet(fr[u], l);
    forall i | 0 <= i < |fr| && Meet(fr[i], l)
      ensures fr[i].hi <= a
    {
      InOrderAt(fr, fi, i);
    }
  }

  lemma {:induction false} PaddingTest(fr: seq<Range>, lr: seq<Range>, fi: nat, li: nat, cur: int, next: int,
      lineUsed: int, a: int)
    requires AllProper(fr) && InOrder(fr) && li < |lr|
    requires Frontier(fr, lr, fi, li, cur) && Steps(fr, lr, fi, li, cur, next)
    requires Covers(lr, li, cur) && !Covers(fr, fi, cur) && cur <= a < next
    requires lineUsed == li <==> UsedBelow(lr[li], fr, cur)
    ensures Padding(lr[li], fr, a) <==> LooksLikePadding(fr, lr, fi, li, lineUsed)
  {
    hide UsedBelow, Padding, InOrder, AllProper;
    if Padding(lr[li], fr, a) {
      PaddingLooksLike(fr, lr, fi, li, cur, next, lineUsed, a);
    }
    if LooksLikePadding(fr, lr, fi, li, lineUsed) {
      LooksLikeIsPadding(fr, lr, fi, li, cur, lineUsed, a);
    }
  }

  lemma {:induction false} UsedBelowNext(fr: seq<Range>, l: Range, fi: nat, cur: int, next: int)
    requires InOrder(fr) && AllProper(fr) && AtFront(fr, fi, cur) && (fi < |fr| ==> next <= fr[fi].hi)
    requires UsedBelow(l, fr, next)
    ensures UsedBelow(l, fr, cur) || (fi < |fr| && Meet(fr[fi], Below(l, next)))
  {
    var i :| 0 <= i < |fr| && Meet(fr[i], Below(l, next));
    InOrderAt(fr, fi, i);
    hide InOrder, AllProper;
    if i < fi {
      assert Meet(fr[i], Below(l, cur));
    }
  }

  lemma {:induction false} UsedStep(fr: seq<Range>, lr: seq<Range>, fi: nat, li: nat, cur: int, next: int)
    requires AllProper(fr) && InOrder(fr) && AllProper(lr) && li < |lr|
    requires Frontier(fr, lr, fi, li, cur) && Steps(fr, lr, fi, li, cur, next)
    ensures UsedBelow(lr[li], fr, next)
       <==> UsedBelow(lr[li], fr, cur) || (Covers(fr, fi, cur) && Covers(lr, li, cur))
  {
    var l := lr[li];
    hide InOrder, AllProper;
    if UsedBelow(l, fr, next) {
      UsedBelowNext(fr, l, fi, cur, next);
      if !UsedBelow(l, fr, cur) {
        assert Meet(fr[fi], Below(l, next));
        assert cur < next <= fr[fi].hi;
      }
    } else {
      forall i | 0 <= i < |fr|
        ensures !Meet(fr[i], Below(l, cur))
      {
        assert !Meet(fr[i], Below(l, next));
      }
      assert fi < |fr| ==> !Meet(fr[fi], Below(l, next));
    }
  }

  /** The four states of the bytes from cur to next decide what happens to the gaps. */
  lemma {:induction false} GapStep(fr: seq<Range>, lr: seq<Range>, fi: nat, li: nat, cur: int, next: int)
    requires AllProper(fr) && InOrder(fr) && AllProper(lr) && InOrder(lr)
    requires Frontier(fr, lr, fi, li, cur) && Steps(fr, lr, fi, li, cur, next) && fi < |fr|
    ensures HasGap(fr[fi], lr, next)
       <==> HasGap(fr[fi], lr, cur) || (Covers(fr, fi, cur) && !Covers(lr, li, cur))
  {
    if Covers(fr, fi, cur) && !Covers(lr, li, cur) {
      CoveredBetween(lr, li, cur, next, cur);
      assert Contains(fr[fi], cur);
    } else {
      forall a | cur <= a < next && Contains(fr[fi], a)
        ensures Covered(a, lr)
      {
        CoveredBetween(lr, li, cur, next, a);
      }
      GapUnchanged(fr[fi], lr, cur, next);
    }
  }

  lemma {:induction false} LineGapStep(fr: seq<Range>, lr: seq<Range>, fi: nat, li: nat, cur: int, next: int,
      lineUsed: int)
    requires AllProper(fr) && InOrder(fr) && AllProper(lr) && InOrder(lr)
    requires Frontier(fr, lr, fi, li, cur) && Steps(fr, lr, fi, li, cur, next) && li < |lr|
    requires lineUsed == li <==> UsedBelow(lr[li], fr, cur)
    ensures HasLineGap(lr[li], fr, next) <==>
              || HasLineGap(lr[li], fr, cur)
              || (Covers(lr, li, cur) && !Covers(fr, fi, cur) && !LooksLikePadding(fr, lr, fi, li, lineUsed))
  {
    if Covers(lr, li, cur) && !Covers(fr, fi, cur) && !LooksLikePadding(fr, lr, fi, li, lineUsed) {
      CoveredBetween(fr, fi, cur, next, cur);
      PaddingTest(fr, lr, fi, li, cur, next, lineUsed, cur);
      assert Contains(lr[li], cur);
    } else {
      forall a | cur <= a < next && Contains(lr[li], a)
        ensures Covered(a, fr) || Padding(lr[li], fr, a)
      {
        CoveredBetween(fr, fi, cur, next, a);
        if !Covers(fr, fi, cur) {
          PaddingTest(fr, lr, fi, li, cur, next, lineUsed, a);
        }
      }
      LineGapUnchanged(lr[li], fr, cur, next);
    }
  }

  // ----- the pass

  /** What the functions and the reporter hold when everything below cur has been dealt with. */
  ghost predicate Recorded(functions: seq<Function>, before: seq<seq<Line>>, fr: seq<Range>, lines: seq<Line>,
      cur: int)
    requires |before| == |functions| == |fr|
    reads functions
  {
    forall i :: 0 <= i < |functions| ==>
      functions[i].lines == before[i] + Pieces(Below(fr[i], cur), lines, |lines|)
  }

  ghost function CitedFunctions(functions: seq<Function>, fr: seq<Range>, lr: seq<Range>, cur: int): seq<Function>
    requires |fr| == |functions|
  {
    MarkedInRange(seq(|fr|, i requires 0 <= i < |fr| => HasGap(fr[i], lr, cur)));
    Pick(functions, UncoveredFunctions(fr, lr, cur))
  }

  ghost function CitedLines(lines: seq<Line>, lr: seq<Range>, fr: seq<Range>, cur: int): seq<Line>
    requires |lr| == |lines|
  {
    MarkedInRange(seq(|lr|, j requires 0 <= j < |lr| => HasLineGap(lr[j], fr, cur)));
    Pick(lines, UncoveredLines(lr, fr, cur))
  }

  /** Nothing has been appended or reported while cur is at or before every function and line. */
  lemma {:induction false} NothingYet(functions: seq<Function>, lines: seq<Line>, fr: seq<Range>,
      lr: seq<Range>, cur: int)
    requires |functions| == |fr| && lr == LineRanges(lines)
    requires forall i :: 0 <= i < |fr| ==> cur <= fr[i].lo
    requires forall j :: 0 <= j < |lr| ==> cur <= lr[j].lo
    ensures forall i :: 0 <= i < |fr| ==> Pieces(Below(fr[i], cur), lines, |lines|) == []
    ensures CitedFunctions(functions, fr, lr, cur) == []
    ensures CitedLines(lines, lr, fr, cur) == []
  {
    forall i | 0 <= i < |fr|
      ensures Pieces(Below(fr[i], cur), lines, |lines|) == []
    {
      PiecesNone(Below(fr[i], cur), lines, 0, |lines|);
    }
    MarkedNone(seq(|fr|, i requires 0 <= i < |fr| => HasGap(fr[i], lr, cur)));
    MarkedNone(seq(|lr|, j requires 0 <= j < |lr| => HasLineGap(lr[j], fr, cur)));
  }

  /** Everything has been dealt with once cur is at or past the end of every function and line. */
  lemma {:induction false} Everything(functions: seq<Function>, lines: seq<Line>, fr: seq<Range>,
      lr: seq<Range>, cur: int)
    requires |functions| == |fr| && |lines| == |lr|
    requires forall i :: 0 <= i < |fr| ==> fr[i].hi <= cur <= ADDRESS_SPACE
    requires forall j :: 0 <= j < |lr| ==> lr[j].hi <= cur <= ADDRESS_SPACE
    ensures forall i :: 0 <= i < |fr| ==> Below(fr[i], cur) == fr[i]
    ensures CitedFunctions(functions, fr, lr, cur) == CitedFunctions(functions, fr, lr, ADDRESS_SPACE)
    ensures CitedLines(lines, lr, fr, cur) == CitedLines(lines, lr, fr, ADDRESS_SPACE)
  {
    forall i | 0 <= i < |fr|
      ensures HasGap(fr[i], lr, cur) == HasGap(fr[i], lr, ADDRESS_SPACE)
    {
      GapUnchanged(fr[i], lr, cur, ADDRESS_SPACE);
    }
    forall j | 0 <= j < |lr|
      ensures HasLineGap(lr[j], fr, cur) == HasLineGap(lr[j], fr, ADDRESS_SPACE)
    {
      LineGapUnchanged(lr[j], fr, cur, ADDRESS_SPACE);
    }
    assert seq(|fr|, i requires 0 <= i < |fr| => HasGap(fr[i], lr, cur))
        == seq(|fr|, i requires 0 <= i < |fr| => HasGap(fr[i], lr, ADDRESS_SPACE));
    assert seq(|lr|, j requires 0 <= j < |lr| => HasLineGap(lr[j], fr, cur))
        == seq(|lr|, j requires 0 <= j < |lr| => HasLineGap(lr[j], fr, ADDRESS_SPACE));
  }

  /**
   What the current step does to the records and warnings, in one place: `record` says whether the
   current function gains a line record, `citeFunction` and `citeLine` whether a warning is given.
   */
  lemma {:induction false} StepEffect(functions: seq<Function>, lines: seq<Line>, fr: seq<Range>,
      lr: seq<Range>, fi: nat, li: nat, cur: int, next: int, functionCited: int, lineCited: int, lineUsed: int)
    requires |functions| == |fr| && lr == LineRanges(lines)
    requires AllProper(fr) && InOrder(fr) && AllProper(lr) && InOrder(lr)
    requires Frontier(fr, lr, fi, li, cur) && Steps(fr, lr, fi, li, cur, next)
    requires Memory(fr, lr, fi, li, cur, functionCited, lineCited, lineUsed)
    ensures forall i :: 0 <= i < |fr| && !(i == fi && Covers(fr, fi, cur) && Covers(lr, li, cur)) ==>
              Pieces(Below(fr[i], next), lines, |lines|) == Pieces(Below(fr[i], cur), lines, |lines|)
    ensures Covers(fr, fi, cur) && Covers(lr, li, cur) ==>
              && 0 <= cur < ADDRESS_SPACE && next - cur < ADDRESS_SPACE
              && Pieces(Below(fr[fi], next), lines, |lines|)
              == Pieces(Below(fr[fi], cur), lines, |lines|)
                 + [Line(cur, next - cur, lines[li].file, lines[li].number)]
    ensures CitedFunctions(functions, fr, lr, next)
         == CitedFunctions(functions, fr, lr, cur)
            + (if Covers(fr, fi, cur) && !Covers(lr, li, cur) && functionCited != fi then [functions[fi]] else [])
    ensures CitedLines(lines, lr, fr, next)
         == CitedLines(lines, lr, fr, cur)
            + (if Covers(lr, li, cur) && !Covers(fr, fi, cur) && lineCited != li
                  && !LooksLikePadding(fr, lr, fi, li, lineUsed) then [lines[li]] else [])
  {
    hide Pieces, Marked, HasGap, HasLineGap, UsedBelow;
    forall i | 0 <= i < |fr| && !(i == fi && Covers(fr, fi, cur) && Covers(lr, li, cur))
      ensures Pieces(Below(fr[i], next), lines, |lines|) == Pieces(Below(fr[i], cur), lines, |lines|)
    {
      PiecesStep(fr, lines, lr, fi, li, cur, next, i);
    }
    if Covers(fr, fi, cur) && Covers(lr, li, cur) {
      PiecesGrow(fr[fi], lines, lr, li, cur, next);
    }
    UncoveredFunctionsStep(fr, lr, fi, cur, next);
    UncoveredLinesStep(lr, fr, li, cur, next);
    if fi < |fr| {
      GapStep(fr, lr, fi, li, cur, next);
    }
    if li < |lr| {
      LineGapStep(fr, lr, fi, li, cur, next, lineUsed);
    }
  }

  /** How the three remembered positions change in a step. */
  ghost predicate StepsMemory(fr: seq<Range>, lr: seq<Range>, fi: nat, li: nat, cur: int, functionCited: int,
      lineCited: int, lineUsed: int, functionCited': int, lineCited': int, lineUsed': int)
  {
    var inFunction, inLine := Covers(fr, fi, cur), Covers(lr, li, cur);
    && functionCited' == (if inFunction && !inLine then fi else functionCited)
    && lineCited' == (if inLine && !inFunction && !LooksLikePadding(fr, lr, fi, li, lineUsed) then li else lineCited)
    && lineUsed' == (if inFunction && inLine then li else lineUsed)
  }

  /** The frontier and the memory after the step, wherever the iterators have moved to. */
  lemma {:induction false} StepMemory(fr: seq<Range>, lr: seq<Range>, fi: nat, li: nat, cur: int, next: int,
      functionCited: int, lineCited: int, lineUsed: int, fi': nat, li': nat, functionCited': int,
      lineCited': int, lineUsed': int)
    requires AllProper(fr) && InOrder(fr) && AllProper(lr) && InOrder(lr)
    requires Frontier(fr, lr, fi, li, cur) && Steps(fr, lr, fi, li, cur, next)
    requires Memory(fr, lr, fi, li, cur, functionCited, lineCited, lineUsed)
    requires StepsMemory(fr, lr, fi, li, cur, functionCited, lineCited, lineUsed, functionCited', lineCited', lineUsed')
    requires fi <= fi' && AtFront(fr, fi', next) && li <= li' && AtFront(lr, li', next)
    ensures Frontier(fr, lr, fi', li', next)
    ensures Memory(fr, lr, fi', li', next, functionCited', lineCited', lineUsed')
  {
    FrontierStep(fr, lr, fi, li, cur, next, fi', li');
    InOrderAt(fr, fi, fi');
    InOrderAt(lr, li, li');
    if fi < |fr| {
      GapStep(fr, lr, fi, li, cur, next);
    }
    if li < |lr| {
      LineGapStep(fr, lr, fi, li, cur, next, lineUsed);
      UsedStep(fr, lr, fi, li, cur, next);
    }
  }

  lemma {:induction false} StartMemory(fr: seq<Range>, lr: seq<Range>, cur: int)
    requires AllProper(fr) && AllProper(lr)
    requires forall i :: 0 <= i < |fr| ==> cur <= fr[i].lo
    requires forall j :: 0 <= j < |lr| ==> cur <= lr[j].lo
    ensures Frontier(fr, lr, 0, 0, cur)
    ensures Memory(fr, lr, 0, 0, cur, -1, -1, -1)
  {
  }

  /** Function objects whose ranges are in order are distinct objects. */
  lemma {:induction false} DistinctFunctions(functions: seq<Function>, fr: seq<Range>)
    requires fr == FunctionRanges(functions) && AllProper(fr) && InOrder(fr)
    ensures forall i, j :: 0 <= i < j < |functions| ==> functions[i] != functions[j]
  {
    forall i, j | 0 <= i < j < |functions|
      ensures functions[i] != functions[j]
    {
      InOrderAt(fr, i, j);
      assert fr[i].lo < fr[i].hi <= fr[j].lo;
    }
  }

  /** The transition after the step, counting the end of the address space as 2^64 and not as 0. */
  function Boundary(next: Address): int {
    if next == 0 then ADDRESS_SPACE else next
  }

  /** From `current` on there is a function and a line: the function gains a record of their common part. */
  method CoveredByBoth(func: Function, line: Line, current: Address) returns (next: Address)
    requires func.address <= current < func.address + func.size <= ADDRESS_SPACE
    requires line.address <= current < line.address + line.size <= ADDRESS_SPACE
    modifies func`lines
    ensures Boundary(next) == Min(func.address + func.size, line.address + line.size)
    ensures func.lines == old(func.lines) + [Line(current, WrapSub(next, current), line.file, line.number)]
  {
    var functionLeft := WrapSub(func.size, WrapSub(current, func.address));
    var lineLeft := WrapSub(line.size, WrapSub(current, line.address));
    next := WrapAdd(current, Min(functionLeft, lineLeft));
    var l := line.(address := current, size := WrapSub(next, current));
    func.lines := func.lines + [l];
  }

  /** From `current` on there is a function but no line: it is reported, unless it was the last one reported. */
  method CoveredByFunction(func: Function, lines: seq<Line>, li: nat, reporter: Reporter, current: Address,
      lastCited: Function?)
    returns (next: Address)
    requires func.address <= current < func.address + func.size <= ADDRESS_SPACE
    requires li < |lines| ==> current < lines[li].address
    modifies reporter`functions
    ensures Boundary(next) == if li < |lines| then Min(func.address + func.size, lines[li].address)
                              else func.address + func.size
    ensures reporter.functions == old(reporter.functions) + (if func != lastCited then [func] else [])
  {
    if func != lastCited {
      reporter.UncoveredFunction(func);
    }
    if li < |lines| && Within(func.address, func.size, lines[li].address) {
      next := lines[li].address;
    } else {
      next := WrapAdd(func.address, func.size);
    }
  }

  /** From `current` on there is a line but no function: perhaps padding at the end of the line. */
  method CoveredByLine(functions: seq<Function>, lines: seq<Line>, reporter: Reporter, fi: nat, li: nat,
      current: Address, lastLineCited: int, lineUsed: int)
    returns (next: Address, lineCited: int)
    requires li < |lines| && lines[li].address <= current < lines[li].address + lines[li].size <= ADDRESS_SPACE
    requires fi < |functions| ==> current < functions[fi].address
    modifies reporter`lines
    ensures Boundary(next) == if fi < |functions| then Min(lines[li].address + lines[li].size, functions[fi].address)
                              else lines[li].address + lines[li].size
    ensures var padding := fi < |functions| && li == lineUsed
                           && functions[fi].address == lines[li].address + lines[li].size;
      && lineCited == (if padding then lastLineCited else li)
      && reporter.lines == old(reporter.lines) + (if !padding && lastLineCited != li then [lines[li]] else [])
  {
    lineCited := lastLineCited;
    var l := lines[li];
    if li != lineCited
       && !(fi < |functions| && li == lineUsed && WrapSub(functions[fi].address, l.address) == l.size) {
      reporter.UncoveredLine(l);
      lineCited := li;
    }
    if fi < |functions| && Within(l.address, l.size, functions[fi].address) {
      next := functions[fi].address;
    } else {
      next := WrapAdd(l.address, l.size);
    }
  }

  /**
   One iteration up to the point where the iterators advance: decide which of the four states the
   bytes from `current` on are in, add a record or give a warning, and find the next transition.
   Sums that pass the end of the address space wrap around to zero.
   */
  method HandleState(functions: seq<Function>, lines: seq<Line>, reporter: Reporter, fi: nat, li: nat,
      current: Address, lastFunctionCited: Function?, lastLineCited: int, lastLineUsed: int)
    returns (next: Address, functionCited: Function?, lineCited: int, lineUsed: int)
    requires fi <= |functions| && li <= |lines| && (fi < |functions| || li < |lines|)
    requires AllProper(FunctionRanges(functions)) && AllProper(LineRanges(lines))
    requires fi < |functions| ==> current < FunctionRanges(functions)[fi].hi
    requires li < |lines| ==> current < LineRanges(lines)[li].hi
    modifies functions`lines, reporter
    ensures Steps(FunctionRanges(functions), LineRanges(lines), fi, li, current, Boundary(next))
    ensures Boundary(next) > current
    ensures var both := Covers(FunctionRanges(functions), fi, current) && Covers(LineRanges(lines), li, current);
      && (forall f <- functions :: f.lines == old(f.lines)
            + (if both && f == functions[fi]
               then [Line(current, WrapSub(next, current), lines[li].file, lines[li].number)] else []))
      && lineUsed == if both then li else lastLineUsed
    ensures var uncovered := Covers(FunctionRanges(functions), fi, current) && !Covers(LineRanges(lines), li, current);
      && functionCited == (if uncovered then functions[fi] else lastFunctionCited)
      && reporter.functions == old(reporter.functions)
            + (if uncovered && lastFunctionCited != functions[fi] then [functions[fi]] else [])
    ensures var uncovered := Covers(LineRanges(lines), li, current) && !Covers(FunctionRanges(functions), fi, current)
                && !LooksLikePadding(FunctionRanges(functions), LineRanges(lines), fi, li, lastLineUsed);
      && lineCited == (if uncovered then li else lastLineCited)
      && reporter.lines == old(reporter.lines) + (if uncovered && lastLineCited != li then [lines[li]] else [])
  {
    functionCited, lineCited, lineUsed := lastFunctionCited, lastLineCited, lastLineUsed;
    if fi < |functions| && current >= functions[fi].address {
      if li < |lines| && current >= lines[li].address {
        next := CoveredByBoth(functions[fi], lines[li], current);
        lineUsed := li;
      } else {
        next := CoveredByFunction(functions[fi], lines, li, reporter, current, functionCited);
        functionCited := functions[fi];
      }
    } else {
      if li < |lines| && current >= lines[li].address {
        next, lineCited := CoveredByLine(functions, lines, reporter, fi, li, current, lineCited, lineUsed);
      } else {
        // covered by neither
        if fi < |functions| && li < |lines| {
          next := Min(functions[fi].address, lines[li].address);
        } else if fi < |functions| {
          next := functions[fi].address;
        } else {
          next := lines[li].address;
        }
      }
    }
  }

  /** Move the function iterator past the functions that end at or before `next`. */
  method AdvanceFunction(functions: seq<Function>, from: nat, next: Address) returns (fi: nat)
    requires from <= |functions| && AllProper(FunctionRanges(functions))
    ensures from <= fi <= |functions|
    ensures forall k :: from <= k < fi ==> FunctionRanges(functions)[k].hi <= next
    ensures fi < |functions| ==> next < FunctionRanges(functions)[fi].hi
  {
    fi := from;
    while fi < |functions| && next >= functions[fi].address
          && !Within(functions[fi].address, functions[fi].size, next)
      invariant from <= fi <= |functions|
      invariant forall k :: from <= k < fi ==> FunctionRanges(functions)[k].hi <= next
    {
      fi := fi + 1;
    }
  }

  /** Move the line iterator past the lines that end at or before `next`. */
  method AdvanceLine(lines: seq<Line>, from: nat, next: Address) returns (li: nat)
    requires from <= |lines| && AllProper(LineRanges(lines))
    ensures from <= li <= |lines|
    ensures forall k :: from <= k < li ==> LineRanges(lines)[k].hi <= next
    ensures li < |lines| ==> next < LineRanges(lines)[li].hi
  {
    li := from;
    while li < |lines| && next >= lines[li].address
          && !Within(lines[li].address, lines[li].size, next)
      invariant from <= li <= |lines|
      invariant forall k :: from <= k < li ==> LineRanges(lines)[k].hi <= next
    {
      li := li + 1;
    }
  }

  /** What has been reported when everything below cur has been dealt with. */
  ghost predicate Reported(reporter: Reporter, functionsBefore: seq<Function>, linesBefore: seq<Line>,
      functions: seq<Function>, lines: seq<Line>, cur: int)
    reads reporter
  {
    var fr, lr := FunctionRanges(functions), LineRanges(lines);
    && reporter.functions == functionsBefore + CitedFunctions(functions, fr, lr, cur)
    && reporter.lines == linesBefore + CitedLines(lines, lr, fr, cur)
  }

  /** The remembered function, as a position: -1 for none. */
  ghost predicate Remembers(functions: seq<Function>, functionCited: Function?, position: int) {
    functionCited == (if 0 <= position < |functions| then functions[position] else null)
  }

  /**
   One iteration up to the point where the iterators advance, with what it has dealt with when
   functions and lines are in order.
   */
  method HandleTransition(functions: seq<Function>, lines: seq<Line>, reporter: Reporter, fi: nat, li: nat,
      current: Address, lastFunctionCited: Function?, lastLineCited: int, lastLineUsed: int, ghost tidy: bool,
      ghost position: int, ghost before: seq<seq<Line>>, ghost functionsBefore: seq<Function>,
      ghost linesBefore: seq<Line>)
    returns (next: Address, functionCited: Function?, lineCited: int, lineUsed: int, ghost position': int)
    requires fi <= |functions| && li <= |lines| && (fi < |functions| || li < |lines|) && |before| == |functions|
    requires AllProper(FunctionRanges(functions)) && AllProper(LineRanges(lines))
    requires fi < |functions| ==> current < FunctionRanges(functions)[fi].hi
    requires li < |lines| ==> current < LineRanges(lines)[li].hi
    requires tidy ==> InOrder(FunctionRanges(functions)) && InOrder(LineRanges(lines))
    requires tidy ==> Frontier(FunctionRanges(functions), LineRanges(lines), fi, li, current)
    requires tidy ==> Memory(FunctionRanges(functions), LineRanges(lines), fi, li, current,
                             position, lastLineCited, lastLineUsed)
    requires tidy ==> Remembers(functions, lastFunctionCited, position)
    requires tidy ==> Recorded(functions, before, FunctionRanges(functions), lines, current)
    requires tidy ==> Reported(reporter, functionsBefore, linesBefore, functions, lines, current)
    modifies functions`lines, reporter
    ensures Steps(FunctionRanges(functions), LineRanges(lines), fi, li, current, Boundary(next))
    ensures Boundary(next) > current
    ensures tidy ==> Recorded(functions, before, FunctionRanges(functions), lines, Boundary(next))
    ensures tidy ==> Reported(reporter, functionsBefore, linesBefore, functions, lines, Boundary(next))
    ensures tidy ==> Remembers(functions, functionCited, position')
    ensures tidy ==> StepsMemory(FunctionRanges(functions), LineRanges(lines), fi, li, current,
                       position, lastLineCited, lastLineUsed, position', lineCited, lineUsed)
  {
    hide CitedFunctions, CitedLines, Pieces, Memory, Frontier, Steps, LooksLikePadding, InOrder, AllProper, Below;
    ghost var fr, lr := FunctionRanges(functions), LineRanges(lines);
    next, functionCited, lineCited, lineUsed :=
      HandleState(functions, lines, reporter, fi, li, current, lastFunctionCited, lastLineCited, lastLineUsed);
    position' := if Covers(fr, fi, current) && !Covers(lr, li, current) then fi else position;
    if tidy {
      DistinctFunctions(functions, fr);
      ghost var end := Boundary(next);
      StepEffect(functions, lines, fr, lr, fi, li, current, end, position, lastLineCited, lastLineUsed);
      ghost var both := Covers(fr, fi, current) && Covers(lr, li, current);
      forall i | 0 <= i < |functions|
        ensures functions[i].lines == before[i] + Pieces(Below(fr[i], end), lines, |lines|)
      {
        assert functions[i] in functions;
        assert old(functions[i].lines) == before[i] + Pieces(Below(fr[i], current), lines, |lines|);
        if both && i == fi {
          assert end - current == WrapSub(next, current);
        } else {
          assert !(both && functions[i] == functions[fi]);
        }
      }
    }
  }

  /** What the pass remembers at a transition: the two iterators, the citations and the last use. */
  ghost predicate Placed(functions: seq<Function>, lines: seq<Line>, fi: nat, li: nat, cur: int,
      functionCited: Function?, lineCited: int, lineUsed: int, position: int)
  {
    var fr, lr := FunctionRanges(functions), LineRanges(lines);
    && Frontier(fr, lr, fi, li, cur)
    && Memory(fr, lr, fi, li, cur, position, lineCited, lineUsed)
    && Remembers(functions, functionCited, position)
  }

  /**
   One whole iteration of the loop, with its assertions.  A next transition of zero ends the pass: it
   has then come to the end of the address space.
   */
  method Round(functions: seq<Function>, lines: seq<Line>, reporter: Reporter, from: nat, lineFrom: nat,
      current: Address, lastFunctionCited: Function?, lastLineCited: int, lastLineUsed: int, ghost tidy: bool,
      ghost lastPosition: int, ghost before: seq<seq<Line>>, ghost functionsBefore: seq<Function>,
      ghost linesBefore: seq<Line>)
    returns (next: Address, fi: nat, li: nat,
             functionCited: Function?, lineCited: int, lineUsed: int, ghost position: int)
    requires from <= |functions| && lineFrom <= |lines| && (from < |functions| || lineFrom < |lines|)
    requires |before| == |functions|
    requires AllProper(FunctionRanges(functions)) && AllProper(LineRanges(lines))
    requires from < |functions| ==> current < FunctionRanges(functions)[from].hi
    requires lineFrom < |lines| ==> current < LineRanges(lines)[lineFrom].hi
    requires tidy ==> InOrder(FunctionRanges(functions)) && InOrder(LineRanges(lines))
    requires tidy ==> Placed(functions, lines, from, lineFrom, current,
                             lastFunctionCited, lastLineCited, lastLineUsed, lastPosition)
    requires tidy ==> Recorded(functions, before, FunctionRanges(functions), lines, current)
    requires tidy ==> Reported(reporter, functionsBefore, linesBefore, functions, lines, current)
    modifies functions`lines, reporter
    ensures tidy ==> Recorded(functions, before, FunctionRanges(functions), lines, Boundary(next))
    ensures tidy ==> Reported(reporter, functionsBefore, linesBefore, functions, lines, Boundary(next))
    ensures next != 0 ==> next > current && fi <= |functions| && li <= |lines|
    ensures next != 0 && fi < |functions| ==> next < FunctionRanges(functions)[fi].hi
    ensures next != 0 && li < |lines| ==> next < LineRanges(lines)[li].hi
    ensures next != 0 && tidy ==> Placed(functions, lines, fi, li, next, functionCited, lineCited, lineUsed, position)
  {
    hide Pieces, Memory, Steps, StepsMemory, Recorded, Reported, Within;
    ghost var fr, lr := FunctionRanges(functions), LineRanges(lines);
    fi, li := from, lineFrom;
    if fi < |functions| {
      WithinIsContains(functions[fi].address, functions[fi].size, current);
    }
    if li < |lines| {
      WithinIsContains(lines[li].address, lines[li].size, current);
    }
    assert fi < |functions| ==>
        current < functions[fi].address || Within(functions[fi].address, functions[fi].size, current);
    assert li < |lines| ==>
        current < lines[li].address || Within(lines[li].address, lines[li].size, current);
    next, functionCited, lineCited, lineUsed, position :=
      HandleTransition(functions, lines, reporter, fi, li, current, lastFunctionCited, lastLineCited, lastLineUsed,
                       tidy, lastPosition, before, functionsBefore, linesBefore);
    if next == 0 {
      return;
    }
    fi := AdvanceFunction(functions, fi, next);
    li := AdvanceLine(lines, li, next);
    if tidy {
      StepMemory(fr, lr, from, lineFrom, current, next, lastPosition, lastLineCited, lastLineUsed,
                 fi, li, position, lineCited, lineUsed);
    }
    assert next > current;
  }

  /** Before the first step, at or below the first function and the first line. */
  lemma {:induction false} StartState(functions: seq<Function>, before: seq<seq<Line>>, lines: seq<Line>,
      reporter: Reporter, cur: int)
    requires AllProper(FunctionRanges(functions)) && SortedByStart(FunctionRanges(functions))
    requires AllProper(LineRanges(lines)) && SortedByStart(LineRanges(lines))
    requires |functions| > 0 ==> cur <= functions[0].address
    requires |lines| > 0 ==> cur <= lines[0].address
    requires |before| == |functions| && forall i :: 0 <= i < |functions| ==> before[i] == functions[i].lines
    ensures Frontier(FunctionRanges(functions), LineRanges(lines), 0, 0, cur)
    ensures Memory(FunctionRanges(functions), LineRanges(lines), 0, 0, cur, -1, -1, -1)
    ensures Recorded(functions, before, FunctionRanges(functions), lines, cur)
    ensures Reported(reporter, reporter.functions, reporter.lines, functions, lines, cur)
  {
    hide CitedFunctions, CitedLines, Pieces, Memory;
    var fr, lr := FunctionRanges(functions), LineRanges(lines);
    forall i | 0 <= i < |fr|
      ensures cur <= fr[i].lo
    {
      assert fr[0].lo <= fr[i].lo;
    }
    forall j | 0 <= j < |lr|
      ensures cur <= lr[j].lo
    {
      assert lr[0].lo <= lr[j].lo;
    }
    NothingYet(functions, lines, fr, lr, cur);
    StartMemory(fr, lr, cur);
  }

  /** After the last step, at or past the end of every function and line. */
  lemma {:induction false} FinishState(functions: seq<Function>, before: seq<seq<Line>>, lines: seq<Line>,
      reporter: Reporter, functionsBefore: seq<Function>, linesBefore: seq<Line>, cur: int)
    requires |before| == |functions| && cur <= ADDRESS_SPACE
    requires forall i :: 0 <= i < |functions| ==> FunctionRanges(functions)[i].hi <= cur
    requires forall j :: 0 <= j < |lines| ==> LineRanges(lines)[j].hi <= cur
    requires Recorded(functions, before, FunctionRanges(functions), lines, cur)
    requires Reported(reporter, functionsBefore, linesBefore, functions, lines, cur)
    ensures forall i :: 0 <= i < |functions| ==>
              functions[i].lines == before[i] + Pieces(FunctionRanges(functions)[i], lines, |lines|)
    ensures Reported(reporter, functionsBefore, linesBefore, functions, lines, ADDRESS_SPACE)
  {
    hide CitedFunctions, CitedLines, Pieces;
    Everything(functions, lines, FunctionRanges(functions), LineRanges(lines), cur);
  }

  /**
   The pass.  Its asserts and its termination hold for any sorted, non-empty, non-wrapping functions
   and lines, overlapping or not.  When no two functions and no two lines overlap, every function
   gains exactly its intersections with the lines, and the warnings are exactly the ones due.
   */
  method AssignLinesToFunctions(functions: seq<Function>, lines: seq<Line>, reporter: Reporter)
    requires AllProper(FunctionRanges(functions)) && SortedByStart(FunctionRanges(functions))
    requires AllProper(LineRanges(lines)) && SortedByStart(LineRanges(lines))
    modifies functions`lines, reporter
    ensures PairwiseDisjoint(FunctionRanges(functions)) && PairwiseDisjoint(LineRanges(lines)) ==>
              && (forall i :: 0 <= i < |functions| ==>
                    functions[i].lines == old(functions[i].lines)
                                          + Pieces(FunctionRanges(functions)[i], lines, |lines|))
              && Reported(reporter, old(reporter.functions), old(reporter.lines), functions, lines, ADDRESS_SPACE)
  {
    hide Pieces, Memory, Steps, StepsMemory, Recorded, Reported, Within;
    ghost var fr, lr := FunctionRanges(functions), LineRanges(lines);
    ghost var tidy := InOrder(fr) && InOrder(lr);
    if PairwiseDisjoint(fr) && PairwiseDisjoint(lr) {
      SortedDisjointInOrder(fr);
      SortedDisjointInOrder(lr);
    }
    ghost var before := seq(|functions|, i requires 0 <= i < |functions| reads functions => functions[i].lines);
    ghost var functionsBefore, linesBefore := reporter.functions, reporter.lines;

    var lineUsed, lineCited := -1, -1;
    var functionCited: Function? := null;
    ghost var position := -1;

    var fi, li := 0, 0;
    var current: Address := 0;
    if |functions| > 0 && |lines| > 0 {
      current := Min(functions[0].address, lines[0].address);
    } else if |lines| > 0 {
      current := lines[0].address;
    } else if |functions| > 0 {
      current := functions[0].address;
    }
    StartState(functions, before, lines, reporter, current);
    // everything below `reach` has been dealt with
    ghost var reach: int := current;

    while fi < |functions| || li < |lines|
      invariant 0 <= fi <= |functions| && 0 <= li <= |lines|
      invariant reach == current
      invariant fi < |fr| ==> current < fr[fi].hi
      invariant li < |lr| ==> current < lr[li].hi
      invariant tidy ==> Placed(functions, lines, fi, li, current, functionCited, lineCited, lineUsed, position)
      invariant tidy ==> Recorded(functions, before, fr, lines, current)
      invariant tidy ==> Reported(reporter, functionsBefore, linesBefore, functions, lines, current)
      decreases ADDRESS_SPACE - current
    {
      var next;
      next, fi, li, functionCited, lineCited, lineUsed, position :=
        Round(functions, lines, reporter, fi, li, current, functionCited, lineCited, lineUsed,
              tidy, position, before, functionsBefore, linesBefore);
      reach := Boundary(next);
      if next == 0 {
        break;
      }
      current := next;
    }
    if tidy {
      FinishState(functions, before, lines, reporter, functionsBefore, linesBefore, reach);
    }
  }
}
