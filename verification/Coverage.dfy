/**
 Intersecting a compilation unit's functions with its source lines: what the single pass over the
 two sorted vectors has to compute, stated on ranges and bytes, without the pass.
 */
module Coverage {
  import opened Words

  /** A source line record: `size` bytes at `address` come from line `number` of `file`. */
  datatype Line = Line(address: Address, size: Address, file: string, number: int)

  /** The bytes lo, lo + 1, ..., hi - 1. */
  datatype Range = Range(lo: int, hi: int)

  function LineRange(l: Line): Range {
    Range(l.address, l.address + l.size)
  }

  function LineRanges(ls: seq<Line>): (rs: seq<Range>)
    ensures |rs| == |ls|
    ensures forall j :: 0 <= j < |ls| ==> rs[j] == LineRange(ls[j])
  {
    seq(|ls|, j requires 0 <= j < |ls| => LineRange(ls[j]))
  }

  /** A range that is not empty and does not run past the end of the address space. */
  predicate Proper(r: Range) {
    0 <= r.lo < r.hi <= ADDRESS_SPACE
  }

  ghost predicate AllProper(rs: seq<Range>) {
    forall i :: 0 <= i < |rs| ==> Proper(rs[i])
  }

  ghost predicate SortedByStart(rs: seq<Range>) {
    forall i, j :: 0 <= i < j < |rs| ==> rs[i].lo <= rs[j].lo
  }

  predicate Contains(r: Range, a: int) {
    r.lo <= a < r.hi
  }

  /** No byte lies in two of the ranges. */
  ghost predicate PairwiseDisjoint(rs: seq<Range>) {
    forall i, j, a :: 0 <= i < j < |rs| && Contains(rs[i], a) ==> !Contains(rs[j], a)
  }

  /** Each range ends before the next begins. */
  ghost predicate InOrder(rs: seq<Range>) {
    forall i, j :: 0 <= i < j < |rs| ==> rs[i].hi <= rs[j].lo
  }

  lemma {:induction false} SortedDisjointInOrder(rs: seq<Range>)
    requires AllProper(rs) && SortedByStart(rs) && PairwiseDisjoint(rs)
    ensures InOrder(rs)
  {
    forall i, j | 0 <= i < j < |rs|
      ensures rs[i].hi <= rs[j].lo
    {
      if rs[j].lo < rs[i].hi {
        assert Contains(rs[i], rs[j].lo) && Contains(rs[j], rs[j].lo);
      }
    }
  }

  // ----- the records a function should receive

  /** The part of line l inside r: nothing, or one record keeping l's file and number. */
  function Piece(r: Range, l: Line): seq<Line> {
    var lo := Max(r.lo, l.address);
    var hi := Min(r.hi, l.address + l.size);
    if 0 <= lo < hi <= ADDRESS_SPACE && hi - lo < ADDRESS_SPACE
    then [Line(lo, hi - lo, l.file, l.number)] else []
  }

  /** The parts of the first n lines inside r, in the order of the lines. */
  function Pieces(r: Range, ls: seq<Line>, n: nat): seq<Line>
    requires n <= |ls|
  {
    if n == 0 then [] else Pieces(r, ls, n - 1) + Piece(r, ls[n - 1])
  }

  /** The part of r below c. */
  function Below(r: Range, c: int): Range {
    Range(r.lo, Min(r.hi, c))
  }

  // ----- the warnings that should be given

  ghost predicate Covered(a: int, rs: seq<Range>) {
    exists i :: 0 <= i < |rs| && Contains(rs[i], a)
  }

  /** Some byte of r below c lies in none of rs. */
  ghost predicate HasGap(r: Range, rs: seq<Range>, c: int) {
    exists a :: Contains(r, a) && a < c && !Covered(a, rs)
  }

  ghost predicate Meet(r: Range, s: Range) {
    Max(r.lo, s.lo) < Min(r.hi, s.hi)
  }

  /**
   Byte a of line l lies in padding: l ends where some function starts, some function uses l, and
   every function using l has ended at or before a.
   */
  ghost predicate Padding(l: Range, fs: seq<Range>, a: int) {
    && (exists i :: 0 <= i < |fs| && fs[i].lo == l.hi)
    && (exists i :: 0 <= i < |fs| && Meet(fs[i], l))
    && (forall i :: 0 <= i < |fs| && Meet(fs[i], l) ==> fs[i].hi <= a)
  }

  /** Some byte of l below c lies in no function and is not padding. */
  ghost predicate HasLineGap(l: Range, fs: seq<Range>, c: int) {
    exists a :: Contains(l, a) && a < c && !Covered(a, fs) && !Padding(l, fs, a)
  }

  // ----- the positions that are marked, in order

  ghost function Marked(flags: seq<bool>): seq<nat> {
    if flags == [] then []
    else Marked(flags[..|flags| - 1]) + (if flags[|flags| - 1] then [|flags| - 1] else [])
  }

  ghost function Pick<T>(xs: seq<T>, positions: seq<nat>): seq<T>
    requires forall k :: 0 <= k < |positions| ==> positions[k] < |xs|
  {
    seq(|positions|, k requires 0 <= k < |positions| => xs[positions[k]])
  }

  /** The functions of which some byte below c has no line. */
  ghost function UncoveredFunctions(fs: seq<Range>, ls: seq<Range>, c: int): seq<nat> {
    Marked(seq(|fs|, i requires 0 <= i < |fs| => HasGap(fs[i], ls, c)))
  }

  /** The lines of which some byte below c has no function and is not padding. */
  ghost function UncoveredLines(ls: seq<Range>, fs: seq<Range>, c: int): seq<nat> {
    Marked(seq(|ls|, j requires 0 <= j < |ls| => HasLineGap(ls[j], fs, c)))
  }

  lemma {:induction false} MarkedInRange(flags: seq<bool>)
    ensures forall k :: 0 <= k < |Marked(flags)| ==> Marked(flags)[k] < |flags|
  {
    if flags != [] {
      MarkedInRange(flags[..|flags| - 1]);
    }
  }

  lemma {:induction false} MarkedNone(flags: seq<bool>)
    requires forall i :: 0 <= i < |flags| ==> !flags[i]
    ensures Marked(flags) == []
  {
    if flags != [] {
      MarkedNone(flags[..|flags| - 1]);
    }
  }

  /** Marking one more position, with nothing marked after it, appends it. */
  lemma {:induction false} MarkedGrow(a: seq<bool>, b: seq<bool>, k: nat)
    requires |a| == |b| && k < |a|
    requires forall i :: 0 <= i < |a| && i != k ==> a[i] == b[i]
    requires !a[k] && b[k]
    requires forall i :: k < i < |a| ==> !a[i]
    ensures Marked(b) == Marked(a) + [k]
  {
    var n := |a| - 1;
    if n == k {
      assert a[..n] == b[..n];
    } else {
      MarkedGrow(a[..n], b[..n], k);
    }
  }

  lemma {:induction false} MarkedExactly(flags: seq<bool>)
    ensures forall k :: 0 <= k < |Marked(flags)| ==> Marked(flags)[k] < |flags| && flags[Marked(flags)[k]]
    ensures forall i :: 0 <= i < |flags| && flags[i] ==> i in Marked(flags)
    ensures forall k, m :: 0 <= k < m < |Marked(flags)| ==> Marked(flags)[k] < Marked(flags)[m]
  {
    if flags != [] {
      MarkedExactly(flags[..|flags| - 1]);
    }
  }

  // ----- what the records mean, byte by byte

  function Intersection(r: Range, s: Range): Range {
    Range(Max(r.lo, s.lo), Min(r.hi, s.hi))
  }

  /** The positions of the lines that share a byte with r. */
  ghost function MeetingLines(r: Range, ls: seq<Line>): seq<nat> {
    Marked(seq(|ls|, j requires 0 <= j < |ls| => Meet(r, LineRange(ls[j]))))
  }

  /** The records are the intersections with the lines that meet r: one per line, in their order. */
  lemma {:induction false} PiecesAreIntersections(r: Range, ls: seq<Line>)
    requires Proper(r)
    ensures var ps, ms := Pieces(r, ls, |ls|), MeetingLines(r, ls);
      && |ps| == |ms|
      && (forall k :: 0 <= k < |ps| ==>
            && ms[k] < |ls|
            && LineRange(ps[k]) == Intersection(r, LineRange(ls[ms[k]]))
            && ps[k].file == ls[ms[k]].file && ps[k].number == ls[ms[k]].number)
  {
    if ls != [] {
      var n := |ls| - 1;
      PiecesAreIntersections(r, ls[..n]);
      PiecesPrefix(r, ls, n);
      assert seq(|ls|, j requires 0 <= j < |ls| => Meet(r, LineRange(ls[j])))[..n]
          == seq(n, j requires 0 <= j < n => Meet(r, LineRange(ls[..n][j])));
    }
  }

  lemma {:induction false} PiecesPrefix(r: Range, ls: seq<Line>, n: nat)
    requires n <= |ls|
    ensures Pieces(r, ls, n) == Pieces(r, ls[..n], n)
    decreases n
  {
    if n > 0 {
      PiecesPrefix(r, ls, n - 1);
      PiecesPrefix(r, ls[..n], n - 1);
      assert ls[..n][..n - 1] == ls[..n - 1];
    }
  }

  /** Byte a carries this file and line number in some record of ps. */
  ghost predicate Attributed(ps: seq<Line>, a: int, file: string, number: int) {
    exists k :: 0 <= k < |ps| && Contains(LineRange(ps[k]), a) && ps[k].file == file && ps[k].number == number
  }

  /** A byte carries a file and line number in the records iff it lies in r and in such a line. */
  lemma {:induction false} PiecesPointwise(r: Range, ls: seq<Line>, a: int, file: string, number: int)
    requires Proper(r)
    ensures Attributed(Pieces(r, ls, |ls|), a, file, number) <==> Contains(r, a) && Attributed(ls, a, file, number)
  {
    hide Pieces, Marked, Meet;
    PiecesAreIntersections(r, ls);
    var ps, ms := Pieces(r, ls, |ls|), MeetingLines(r, ls);
    if Attributed(ps, a, file, number) {
      var k :| 0 <= k < |ps| && Contains(LineRange(ps[k]), a) && ps[k].file == file && ps[k].number == number;
      assert Contains(LineRange(ls[ms[k]]), a);
    }
    if Contains(r, a) && Attributed(ls, a, file, number) {
      var j :| 0 <= j < |ls| && Contains(LineRange(ls[j]), a) && ls[j].file == file && ls[j].number == number;
      var k := MeetingLine(r, ls, j, a);
      assert Contains(LineRange(ps[k]), a);
    }
  }

  lemma {:induction false} MeetingLine(r: Range, ls: seq<Line>, j: nat, a: int) returns (k: nat)
    requires j < |ls| && Contains(r, a) && Contains(LineRange(ls[j]), a)
    ensures k < |MeetingLines(r, ls)| && MeetingLines(r, ls)[k] == j
  {
    var flags := seq(|ls|, j requires 0 <= j < |ls| => Meet(r, LineRange(ls[j])));
    MarkedExactly(flags);
    assert flags[j];
    k :| 0 <= k < |Marked(flags)| && Marked(flags)[k] == j;
  }

  /** The lines that meet r, in their order; each shares a byte with it. */
  lemma {:induction false} MeetingLinesInOrder(r: Range, ls: seq<Line>)
    ensures var ms := MeetingLines(r, ls);
      && (forall k :: 0 <= k < |ms| ==> ms[k] < |ls| && Meet(r, LineRange(ls[ms[k]])))
      && (forall k, m :: 0 <= k < m < |ms| ==> ms[k] < ms[m])
  {
    hide Marked, LineRange, Meet;
    MarkedExactly(seq(|ls|, j requires 0 <= j < |ls| => Meet(r, LineRange(ls[j]))));
  }

  /** One record against a later one. */
  lemma {:induction false} PieceBefore(r: Range, ls: seq<Line>, k: nat, m: nat)
    requires Proper(r) && InOrder(LineRanges(ls)) && k < |Pieces(r, ls, |ls|)| && m < |Pieces(r, ls, |ls|)|
    ensures var ps := Pieces(r, ls, |ls|);
      && (k < m ==> LineRange(ps[k]).hi <= LineRange(ps[m]).lo)
      && Proper(LineRange(ps[k])) && r.lo <= LineRange(ps[k]).lo && LineRange(ps[k]).hi <= r.hi
  {
    hide Marked, Pieces, InOrder, LineRange;
    PiecesAreIntersections(r, ls);
    MeetingLinesInOrder(r, ls);
    hide MeetingLines;
    var ms := MeetingLines(r, ls);
    InOrderAt(LineRanges(ls), ms[k], ms[m]);
  }

  /** The records of one function are proper ranges inside it, each ending before the next begins. */
  lemma {:induction false} PiecesInOrder(r: Range, ls: seq<Line>)
    requires Proper(r) && InOrder(LineRanges(ls))
    ensures var rs := LineRanges(Pieces(r, ls, |ls|));
      && InOrder(rs) && AllProper(rs)
      && (forall k :: 0 <= k < |rs| ==> r.lo <= rs[k].lo && rs[k].hi <= r.hi)
  {
    hide Pieces, LineRange, Proper;
    forall k: nat, m: nat | k < |Pieces(r, ls, |ls|)| && m < |Pieces(r, ls, |ls|)|
      ensures var ps := Pieces(r, ls, |ls|);
        && (k < m ==> LineRange(ps[k]).hi <= LineRange(ps[m]).lo)
        && Proper(LineRange(ps[k])) && r.lo <= LineRange(ps[k]).lo && LineRange(ps[k]).hi <= r.hi
    {
      PieceBefore(r, ls, k, m);
    }
  }

  lemma {:induction false} InOrderAt(rs: seq<Range>, i: int, j: int)
    requires InOrder(rs)
    ensures 0 <= i < j < |rs| ==> rs[i].hi <= rs[j].lo
  {
  }

  /** A function is reported iff some byte of it has no line, and then once. */
  lemma {:induction false} UncoveredFunctionsExactly(fs: seq<Range>, ls: seq<Range>)
    requires AllProper(fs)
    ensures var cited := UncoveredFunctions(fs, ls, ADDRESS_SPACE);
      && (forall i: nat :: i in cited <==> i < |fs| && exists a :: Contains(fs[i], a) && !Covered(a, ls))
      && (forall k, m :: 0 <= k < m < |cited| ==> cited[k] < cited[m])
  {
    var flags := seq(|fs|, i requires 0 <= i < |fs| => HasGap(fs[i], ls, ADDRESS_SPACE));
    MarkedExactly(flags);
    forall i: nat | i < |fs|
      ensures HasGap(fs[i], ls, ADDRESS_SPACE) <==> exists a :: Contains(fs[i], a) && !Covered(a, ls)
    {
      if a :| Contains(fs[i], a) && !Covered(a, ls) {
        assert a < ADDRESS_SPACE;
      }
    }
  }

  /** A line is reported iff some byte of it has no function and is not padding, and then once. */
  lemma {:induction false} UncoveredLinesExactly(ls: seq<Range>, fs: seq<Range>)
    requires AllProper(ls)
    ensures var cited := UncoveredLines(ls, fs, ADDRESS_SPACE);
      && (forall j: nat :: j in cited <==>
            j < |ls| && exists a :: Contains(ls[j], a) && !Covered(a, fs) && !Padding(ls[j], fs, a))
      && (forall k, m :: 0 <= k < m < |cited| ==> cited[k] < cited[m])
  {
    var flags := seq(|ls|, j requires 0 <= j < |ls| => HasLineGap(ls[j], fs, ADDRESS_SPACE));
    MarkedExactly(flags);
    forall j: nat | j < |ls|
      ensures HasLineGap(ls[j], fs, ADDRESS_SPACE)
         <==> exists a :: Contains(ls[j], a) && !Covered(a, fs) && !Padding(ls[j], fs, a)
    {
      if a :| Contains(ls[j], a) && !Covered(a, fs) && !Padding(ls[j], fs, a) {
        assert a < ADDRESS_SPACE;
      }
    }
  }
}
