/**
 The layout of a STABS section: the bytes of its entries, in either byte order.
 */
module StabsBytes {
  import opened ByteCursors
  import opened StabsStream
  import opened Words

  // ----- the bytes of numbers

  function LittleBytes(v: nat, size: nat): (bytes: seq<Byte>)
    ensures |bytes| == size
  {
    if size == 0 then [] else [v % 256] + LittleBytes(v / 256, size - 1)
  }

  function NumberBytes(v: nat, size: nat, bigEndian: bool): (bytes: seq<Byte>)
    ensures |bytes| == size
  {
    if bigEndian then Reversed(LittleBytes(v, size)) else LittleBytes(v, size)
  }

  lemma {:induction false} LittleOfBytes(v: nat, size: nat)
    requires v < Power(size)
    ensures Little(LittleBytes(v, size)) == v
  {
    if size > 0 {
      LittleOfBytes(v / 256, size - 1);
      assert LittleBytes(v, size)[1..] == LittleBytes(v / 256, size - 1);
    }
  }

  lemma {:induction false} NumberOfBytes(v: nat, size: nat, bigEndian: bool)
    requires v < Power(size)
    ensures Number(NumberBytes(v, size, bigEndian), bigEndian) == v
  {
    LittleOfBytes(v, size);
    BigIsLittleReversed(LittleBytes(v, size));
  }

  lemma {:induction false} BytesOfLittle(bytes: seq<Byte>)
    ensures LittleBytes(Little(bytes), |bytes|) == bytes
  {
    if bytes != [] {
      BytesOfLittle(bytes[1..]);
      var v := Little(bytes);
      assert v % 256 == bytes[0] && v / 256 == Little(bytes[1..]);
    }
  }

  lemma {:induction false} ReversedTwice(bytes: seq<Byte>)
    ensures Reversed(Reversed(bytes)) == bytes
  {
    if bytes != [] {
      ReversedMore(Reversed(bytes[1..]), bytes[0]);
      ReversedTwice(bytes[1..]);
    }
  }

  lemma {:induction false} ReversedMore(bytes: seq<Byte>, b: Byte)
    ensures Reversed(bytes + [b]) == [b] + Reversed(bytes)
  {
    if bytes == [] {
      assert [b][1..] == [];
    } else {
      assert (bytes + [b])[1..] == bytes[1..] + [b];
      ReversedMore(bytes[1..], b);
    }
  }

  lemma {:induction false} BytesOfNumber(bytes: seq<Byte>, bigEndian: bool)
    ensures NumberBytes(Number(bytes, bigEndian), |bytes|, bigEndian) == bytes
  {
    if bigEndian {
      ReversedTwice(bytes);
      BigIsLittleReversed(Reversed(bytes));
      BytesOfLittle(Reversed(bytes));
    } else {
      BytesOfLittle(bytes);
    }
  }

  // ----- the bytes of entries

  /** The fields of an entry fit into their places. */
  predicate IsEntry(e: Entry, valueSize: ValueSize) {
    && e.nameOffset < 0x1_0000_0000 && e.kind < 0x100 && e.other < 0x100 && e.descriptor < 0x1_0000
    && (valueSize == 4 ==> e.value < 0x1_0000_0000)
  }

  /** A name offset, a type, another byte, a descriptor and a value, one behind the other. */
  function EntryBytes(e: Entry, bigEndian: bool, valueSize: ValueSize): (bytes: seq<Byte>)
    ensures |bytes| == 12 || |bytes| == 16
    ensures |bytes| == 8 + valueSize
  {
    NumberBytes(e.nameOffset, 4, bigEndian) + NumberBytes(e.kind, 1, bigEndian) + NumberBytes(e.other, 1, bigEndian)
    + NumberBytes(e.descriptor, 2, bigEndian) + NumberBytes(e.value, valueSize, bigEndian)
  }

  function SectionBytes(es: seq<Entry>, bigEndian: bool, valueSize: ValueSize): seq<Byte> {
    if es == [] then [] else EntryBytes(es[0], bigEndian, valueSize) + SectionBytes(es[1..], bigEndian, valueSize)
  }

  lemma {:induction false} PowersOfFields()
    ensures Power(1) == 0x100 && Power(2) == 0x1_0000 && Power(4) == 0x1_0000_0000 && Power(8) == ADDRESS_SPACE
  {
    assert Power(6) == 0x1_0000_0000_0000;
  }

  lemma {:induction false} FiveParts(a: seq<Byte>, b: seq<Byte>, c: seq<Byte>, d: seq<Byte>, e: seq<Byte>,
      rest: seq<Byte>)
    requires |a| == 4 && |b| == 1 && |c| == 1 && |d| == 2
    ensures var all := a + b + c + d + e + rest;
      && all[0..4] == a && all[4..5] == b && all[5..6] == c && all[6..8] == d && all[8..8 + |e|] == e
      && all[8 + |e|..] == rest
  {
  }

  /** The first entry is read from its bytes. */
  lemma {:induction false} FirstEntry(e: Entry, rest: seq<Byte>, bigEndian: bool, valueSize: ValueSize)
    requires IsEntry(e, valueSize)
    ensures var bytes := EntryBytes(e, bigEndian, valueSize) + rest;
      Count(bytes, valueSize) > 0 && EntryAt(bytes, bigEndian, valueSize, 0) == e
  {
    hide NumberBytes, Number, Count;
    var bytes := EntryBytes(e, bigEndian, valueSize) + rest;
    EntryFits(bytes, valueSize, 0);
    PowersOfFields();
    NumberOfBytes(e.nameOffset, 4, bigEndian);
    NumberOfBytes(e.kind, 1, bigEndian);
    NumberOfBytes(e.other, 1, bigEndian);
    NumberOfBytes(e.descriptor, 2, bigEndian);
    NumberOfBytes(e.value, valueSize, bigEndian);
    FiveParts(NumberBytes(e.nameOffset, 4, bigEndian), NumberBytes(e.kind, 1, bigEndian),
              NumberBytes(e.other, 1, bigEndian), NumberBytes(e.descriptor, 2, bigEndian),
              NumberBytes(e.value, valueSize, bigEndian), rest);
    assert EntryAt(bytes, bigEndian, valueSize, 0)
        == Entry(Number(bytes[0..4], bigEndian), Number(bytes[4..5], bigEndian), Number(bytes[5..6], bigEndian),
                 Number(bytes[6..8], bigEndian), Number(bytes[8..8 + valueSize], bigEndian));
  }

  lemma {:induction false} SliceOfRest(a: seq<Byte>, b: seq<Byte>, from: nat, to: nat)
    requires from <= to <= |b|
    ensures (a + b)[|a| + from..|a| + to] == b[from..to]
  {
  }

  /** Behind it the others are read as if it were not there. */
  lemma {:induction false} OtherEntries(first: seq<Byte>, rest: seq<Byte>, bigEndian: bool,
      valueSize: ValueSize, k: nat)
    requires |first| == EntrySize(valueSize) && k < Count(rest, valueSize)
    ensures k + 1 < Count(first + rest, valueSize)
    ensures EntryAt(first + rest, bigEndian, valueSize, k + 1) == EntryAt(rest, bigEndian, valueSize, k)
  {
    hide Number, Count;
    EntryFits(rest, valueSize, k);
    EntryFits(first + rest, valueSize, k + 1);
    var at := k * EntrySize(valueSize);
    assert (k + 1) * EntrySize(valueSize) == |first| + at;
    SliceOfRest(first, rest, at, at + 4);
    SliceOfRest(first, rest, at + 4, at + 5);
    SliceOfRest(first, rest, at + 5, at + 6);
    SliceOfRest(first, rest, at + 6, at + 8);
    SliceOfRest(first, rest, at + 8, at + 8 + valueSize);
  }

  lemma {:induction false} OneMore(first: seq<Byte>, rest: seq<Byte>, valueSize: ValueSize)
    requires |first| == EntrySize(valueSize)
    ensures Count(first + rest, valueSize) == 1 + Count(rest, valueSize)
  {
  }

  /** The entries of a section are its first one and those of the bytes behind it. */
  lemma {:induction false} EntriesGrow(first: seq<Byte>, rest: seq<Byte>, bigEndian: bool, valueSize: ValueSize)
    requires |first| == EntrySize(valueSize)
    ensures Count(first + rest, valueSize) == 1 + Count(rest, valueSize)
    ensures Entries(first + rest, bigEndian, valueSize)
         == [EntryAt(first + rest, bigEndian, valueSize, 0)] + Entries(rest, bigEndian, valueSize)
  {
    hide EntryAt;
    OneMore(first, rest, valueSize);
    forall k: nat | k < Count(rest, valueSize)
      ensures k + 1 < Count(first + rest, valueSize)
      ensures EntryAt(first + rest, bigEndian, valueSize, k + 1) == EntryAt(rest, bigEndian, valueSize, k)
    {
      OtherEntries(first, rest, bigEndian, valueSize, k);
    }
  }

  /**
   Entries, put one behind the other as bytes, are read as they were; what is left behind them and too
   short for an entry is not read.
   */
  lemma {:induction false} EntriesOfBytes(es: seq<Entry>, tail: seq<Byte>, bigEndian: bool, valueSize: ValueSize)
    requires (forall e <- es :: IsEntry(e, valueSize)) && |tail| < EntrySize(valueSize)
    ensures Entries(SectionBytes(es, bigEndian, valueSize) + tail, bigEndian, valueSize) == es
  {
    hide EntryAt, EntryBytes, Entries, IsEntry;
    if es == [] {
      assert SectionBytes(es, bigEndian, valueSize) + tail == tail;
      NoEntries(tail, bigEndian, valueSize);
    } else {
      var first, rest := EntryBytes(es[0], bigEndian, valueSize), SectionBytes(es[1..], bigEndian, valueSize) + tail;
      assert SectionBytes(es, bigEndian, valueSize) + tail == first + rest;
      EntriesOfBytes(es[1..], tail, bigEndian, valueSize);
      FirstEntry(es[0], rest, bigEndian, valueSize);
      EntriesGrow(first, rest, bigEndian, valueSize);
    }
  }

  lemma {:induction false} NoEntries(tail: seq<Byte>, bigEndian: bool, valueSize: ValueSize)
    requires |tail| < EntrySize(valueSize)
    ensures Entries(tail, bigEndian, valueSize) == []
  {
  }

  /** An entry read from bytes has these bytes. */
  lemma {:induction false} BytesOfFirst(bytes: seq<Byte>, bigEndian: bool, valueSize: ValueSize)
    requires Count(bytes, valueSize) > 0
    ensures |bytes| >= EntrySize(valueSize)
    ensures var e := EntryAt(bytes, bigEndian, valueSize, 0);
      EntryBytes(e, bigEndian, valueSize) == bytes[..EntrySize(valueSize)] && IsEntry(e, valueSize)
  {
    hide NumberBytes, Number, Count;
    EntryFits(bytes, valueSize, 0);
    PowersOfFields();
    BytesOfNumber(bytes[0..4], bigEndian);
    BytesOfNumber(bytes[4..5], bigEndian);
    BytesOfNumber(bytes[5..6], bigEndian);
    BytesOfNumber(bytes[6..8], bigEndian);
    BytesOfNumber(bytes[8..8 + valueSize], bigEndian);
    assert bytes[0..4] + bytes[4..5] + bytes[5..6] + bytes[6..8] + bytes[8..8 + valueSize] == bytes[..8 + valueSize];
  }

  /** And the whole entries of any section are those whose bytes it starts with. */
  lemma {:induction false} BytesOfEntries(bytes: seq<Byte>, bigEndian: bool, valueSize: ValueSize)
    ensures SectionBytes(Entries(bytes, bigEndian, valueSize), bigEndian, valueSize) <= bytes
    decreases |bytes|
  {
    hide EntryAt, EntryBytes, Entries;
    var es := Entries(bytes, bigEndian, valueSize);
    if es != [] {
      BytesOfFirst(bytes, bigEndian, valueSize);
      var first, rest := bytes[..EntrySize(valueSize)], bytes[EntrySize(valueSize)..];
      assert bytes == first + rest;
      EntriesGrow(first, rest, bigEndian, valueSize);
      assert es[1..] == Entries(rest, bigEndian, valueSize);
      BytesOfEntries(rest, bigEndian, valueSize);
    }
  }
}
