/** Bytes as numbers. */
module MD5Bytes {
  lemma {:induction false} ByteIsNumber(n: nat)
    requires n < 0x100
    ensures (n as bv8) as int == n
  {
  }
}

/**
 `MD5Final`: the end of a message.  The program writes the length of the message at the bytes 14 and 15 of
 the last block, where RFC 1321 has it in the words 14 and 15, so it does not end messages as the standard
 does.
 */
module MD5Finals {
  import opened MD5Bytes
  import opened MD5Words
  import opened MD5

  function Zeros(n: nat): seq<u8> { seq(n, i => 0) }

  /** The low-order byte is the first. */
  lemma {:induction false} FourBytesAreWord(w: nat)
    requires w < WORD
    ensures var b := FourBytes(w);
      w == (b[0] as int) + 0x100 * (b[1] as int) + 0x1_0000 * (b[2] as int) + 0x100_0000 * (b[3] as int)
  {
    ByteIsNumber(w % 0x100);
    ByteIsNumber(w / 0x100 % 0x100);
    ByteIsNumber(w / 0x1_0000 % 0x100);
    ByteIsNumber(w / 0x100_0000);
    var b := FourBytes(w);
    assert b[0] as int == w % 0x100 && b[1] as int == w / 0x100 % 0x100;
    assert b[2] as int == w / 0x1_0000 % 0x100 && b[3] as int == w / 0x100_0000;
    hide FourBytes;
    FourDigits(w);
  }

  lemma {:induction false} FourDigits(w: nat)
    ensures w == w % 0x100 + 0x100 * (w / 0x100 % 0x100) + 0x1_0000 * (w / 0x1_0000 % 0x100)
                 + 0x100_0000 * (w / 0x100_0000)
  {
    assert w / 0x100 / 0x100 == w / 0x1_0000 && w / 0x1_0000 / 0x100 == w / 0x100_0000;
  }

  /** A word of the length, the low-order byte first. */
  function FourBytes(w: nat): (bytes: seq<u8>)
    requires w < WORD
    ensures |bytes| == 4
  {
    [(w % 0x100) as u8, (w / 0x100 % 0x100) as u8, (w / 0x1_0000 % 0x100) as u8, (w / 0x100_0000) as u8]
  }

  function LengthBytes(low: nat, high: nat): (bytes: seq<u8>)
    requires low < WORD && high < WORD
    ensures |bytes| == 8
  {
    FourBytes(low) + FourBytes(high)
  }

  // ----- the standard

  /** Section 3.1 of RFC 1321: a bit that is set, and as few others as make the length 56 bytes modulo 64. */
  function Padding(length: nat): (p: seq<u8>)
    ensures (length + |p|) % BLOCK_SIZE == 56 && 1 <= |p| <= BLOCK_SIZE
  {
    var used := length % BLOCK_SIZE;
    [0x80] + Zeros(if used < 56 then 55 - used else 119 - used)
  }

  /** Sections 3.1 and 3.2: the padding, and then the length in bits modulo 2^64. */
  function Padded(message: seq<u8>): seq<u8> {
    message + Padding(|message|) + LengthBytes(LowBits(|message|), HighBits(|message|))
  }

  function DigestOf(c: Chain): seq<u8> {
    [ByteOf(c.a, 0), ByteOf(c.a, 1), ByteOf(c.a, 2), ByteOf(c.a, 3),
     ByteOf(c.b, 0), ByteOf(c.b, 1), ByteOf(c.b, 2), ByteOf(c.b, 3),
     ByteOf(c.c, 0), ByteOf(c.c, 1), ByteOf(c.c, 2), ByteOf(c.c, 3),
     ByteOf(c.d, 0), ByteOf(c.d, 1), ByteOf(c.d, 2), ByteOf(c.d, 3)]
  }

  // ----- the program

  /** One block or two more. */
  function ChainOfEnding(c: Chain, ending: seq<u8>): Chain
    requires |ending| == BLOCK_SIZE || |ending| == 2 * BLOCK_SIZE
  {
    if |ending| == BLOCK_SIZE then TransformBlock(c, ending)
    else TransformBlock(TransformBlock(c, ending[..BLOCK_SIZE]), ending[BLOCK_SIZE..])
  }

  /** The words of the length are written at the bytes 14 and 15, the second over most of the first. */
  function WithLength(block: seq<u8>, low: nat, high: nat): (b: seq<u8>)
    requires |block| == BLOCK_SIZE && low < WORD && high < WORD
    ensures |b| == BLOCK_SIZE
  {
    block[..14] + FourBytes(low)[..1] + FourBytes(high) + block[19..]
  }

  /** What is transformed in the end; `stale` is what the last eight bytes of the buffer held before. */
  function Ending(kept: seq<u8>, stale: seq<u8>, low: nat, high: nat): (e: seq<u8>)
    requires |kept| < BLOCK_SIZE && |stale| == 8 && low < WORD && high < WORD
    ensures |e| == if |kept| < 56 then BLOCK_SIZE else 2 * BLOCK_SIZE
  {
    if |kept| < 56 then WithLength(kept + [0x80] + Zeros(55 - |kept|) + stale, low, high)
    else
      var first := kept + [0x80] + Zeros(63 - |kept|);
      first + WithLength(Zeros(56) + first[56..], low, high)
  }

  /** What the standard transforms in the end. */
  function StandardEnding(kept: seq<u8>, low: nat, high: nat): (e: seq<u8>)
    requires |kept| < BLOCK_SIZE && low < WORD && high < WORD
    ensures |e| == if |kept| < 56 then BLOCK_SIZE else 2 * BLOCK_SIZE
  {
    kept + Padding(|kept|) + LengthBytes(low, high)
  }

  /** The last block before the length is written, and the chaining value then. */
  function LastBlock(kept: seq<u8>, end: seq<u8>): (b: seq<u8>)
    requires |kept| < BLOCK_SIZE && |end| == 8
    ensures |b| == BLOCK_SIZE
  {
    (if |kept| < 56 then kept + [0x80] + Zeros(55 - |kept|) else Zeros(56)) + end
  }

  /** The eight bytes that are where the length should be. */
  function LastEight(kept: seq<u8>, stale: seq<u8>): (end: seq<u8>)
    requires |kept| < BLOCK_SIZE && |stale| == 8
    ensures |end| == 8
  {
    if |kept| < 56 then stale else kept[56..] + [0x80] + Zeros(63 - |kept|)
  }

  /** The chaining value before the last block. */
  function BeforeLast(c: Chain, kept: seq<u8>): Chain
    requires |kept| < BLOCK_SIZE
  {
    if |kept| < 56 then c else TransformBlock(c, kept + [0x80] + Zeros(63 - |kept|))
  }

  /** The first half: pad the message. */
  method Pad(ctx: MD5Context, ghost kept: seq<u8>, count: nat)
    requires ctx.block.Length == BLOCK_SIZE && count == |kept| < BLOCK_SIZE && ctx.block[..count] == kept
    modifies ctx`chain, ctx.block
    ensures ctx.chain == BeforeLast(old(ctx.chain), kept)
    ensures ctx.block[..] == LastBlock(kept, LastEight(kept, old(ctx.block[56..])))
  {
    hide Words, Transform;
    ctx.CopyIn(count, [0x80]);
    var left := 63 - count;
    if left < 8 {
      PadTwo(ctx, kept, count);
    } else {
      ctx.CopyIn(count + 1, Zeros(left - 8));
      assert ctx.block[..] == ctx.block[..count + 1] + Zeros(left - 8) + ctx.block[56..];
    }
  }

  /** There is no room for the length behind the bit that is set: transform the block and begin another. */
  method PadTwo(ctx: MD5Context, ghost kept: seq<u8>, count: nat)
    requires ctx.block.Length == BLOCK_SIZE && 56 <= count == |kept| < BLOCK_SIZE
    requires ctx.block[..count + 1] == kept + [0x80]
    modifies ctx`chain, ctx.block
    ensures ctx.chain == BeforeLast(old(ctx.chain), kept)
    ensures ctx.block[..] == Zeros(56) + (kept[56..] + [0x80] + Zeros(63 - |kept|))
  {
    hide Words, Transform;
    ctx.CopyIn(count + 1, Zeros(63 - count));
    ghost var first := kept + [0x80] + Zeros(63 - |kept|);
    assert ctx.block[..] == first;
    ctx.chain := MD5Transform(ctx.chain, Words(ctx.block[..]));
    ctx.CopyIn(0, Zeros(56));
    assert ctx.block[..] == Zeros(56) + first[56..];
    assert first[56..] == kept[56..] + [0x80] + Zeros(63 - |kept|);
  }

  /** The second half: write the length, and transform what is then in the block. */
  method PutLength(ctx: MD5Context)
    requires ctx.block.Length == BLOCK_SIZE && ctx.bits0 < WORD && ctx.bits1 < WORD
    modifies ctx.block
    ensures ctx.block[..] == WithLength(old(ctx.block[..]), ctx.bits0, ctx.bits1)
  {
    hide FourBytes;
    ghost var last, one, two := ctx.block[..], FourBytes(ctx.bits0), FourBytes(ctx.bits1);
    ctx.CopyIn(14, FourBytes(ctx.bits0));
    ghost var middle := ctx.block[..];
    assert middle[14..15] == middle[14..18][..1] == one[..1];
    ctx.CopyIn(15, FourBytes(ctx.bits1));
    assert ctx.block[..15] == middle[..14] + middle[14..15];
    assert ctx.block[19..] == middle[19..] == last[19..];
    assert ctx.block[..] == ctx.block[..15] + ctx.block[15..19] + ctx.block[19..];
  }

  method MD5Final(ctx: MD5Context) returns (digest: seq<u8>)
    requires ctx.Valid()
    modifies ctx, ctx.block
    ensures digest == DigestOf(ChainOfEnding(old(ctx.chain),
      Ending(Residue(old(ctx.message)), old(ctx.block[56..]), old(ctx.bits0), old(ctx.bits1))))
  {
    hide ChainOf, Words, Transform, DigestOf, Residue, LastBlock, LastEight, WithLength, Ending, LowBits, HighBits;
    ghost var kept, stale := Residue(ctx.message), ctx.block[56..];
    LengthIsTwoWords(|ctx.message|);
    UsedBytes(|ctx.message|);
    EndingIsBlocks(ctx.chain, kept, stale, ctx.bits0, ctx.bits1);
    Pad(ctx, kept, ctx.bits0 / 8 % BLOCK_SIZE);
    PutLength(ctx);
    ctx.chain := MD5Transform(ctx.chain, Words(ctx.block[..]));
    digest := DigestOf(ctx.chain);
    ctx.chain := Chain(Word(0), Word(0), Word(0), Word(0));
    ctx.bits0, ctx.bits1 := 0, 0;
    ctx.CopyIn(0, Zeros(BLOCK_SIZE));
  }

  lemma {:induction false} LengthIsTwoWords(n: nat)
    ensures LowBits(n) < WORD && HighBits(n) < WORD
  {
  }

  lemma {:induction false} EndingIsBlocks(c: Chain, kept: seq<u8>, stale: seq<u8>, low: nat, high: nat)
    requires |kept| < BLOCK_SIZE && |stale| == 8 && low < WORD && high < WORD
    ensures ChainOfEnding(c, Ending(kept, stale, low, high))
         == TransformBlock(BeforeLast(c, kept), WithLength(LastBlock(kept, LastEight(kept, stale)), low, high))
  {
    hide TransformBlock, WithLength;
    if |kept| >= 56 {
      var first := kept + [0x80] + Zeros(63 - |kept|);
      var last := WithLength(Zeros(56) + first[56..], low, high);
      assert first[56..] == LastEight(kept, stale);
      assert (first + last)[..BLOCK_SIZE] == first && (first + last)[BLOCK_SIZE..] == last;
    }
  }

  // ----- how they differ

  lemma {:induction false} PaddingOfResidue(message: seq<u8>)
    ensures Padded(message)
         == Whole(message) + StandardEnding(Residue(message), LowBits(|message|), HighBits(|message|))
  {
    assert Padding(|Residue(message)|) == Padding(|message|);
    assert Whole(message) + Residue(message) == message;
  }

  /** With the standard's ending the chaining value is that of the padded message. */
  lemma {:induction false} StandardChain(message: seq<u8>)
    ensures ChainOf(Padded(message)) == ChainOfEnding(ChainOf(message),
      StandardEnding(Residue(message), LowBits(|message|), HighBits(|message|)))
  {
    hide ChainOf, TransformBlock, Padded, Padding, LengthBytes;
    var ending := StandardEnding(Residue(message), LowBits(|message|), HighBits(|message|));
    PaddingOfResidue(message);
    ChainOfWhole(message);
    if |ending| == BLOCK_SIZE {
      ChainOfBlock(Whole(message), ending);
    } else {
      ChainOfBlock(Whole(message), ending[..BLOCK_SIZE]);
      ChainOfBlock(Whole(message) + ending[..BLOCK_SIZE], ending[BLOCK_SIZE..]);
      assert Whole(message) + ending[..BLOCK_SIZE] + ending[BLOCK_SIZE..] == Whole(message) + ending;
    }
  }

  /**
   Exactly when the program transforms what the standard does: if the end of the buffer happens to hold
   the length already, and the misplaced length what it is written over.
   */
  lemma {:induction false} EndingIsStandard(kept: seq<u8>, stale: seq<u8>, low: nat, high: nat)
    requires |kept| < BLOCK_SIZE && |stale| == 8 && low < WORD && high < WORD
    ensures Ending(kept, stale, low, high) == StandardEnding(kept, low, high) <==>
      && LastEight(kept, stale) == LengthBytes(low, high)
      && LastBlock(kept, stale)[14..19] == FourBytes(low)[..1] + FourBytes(high)
  {
    hide FourBytes, LengthBytes;
    var end, length := LastEight(kept, stale), LengthBytes(low, high);
    var last := LastBlock(kept, end);
    var misplaced := FourBytes(low)[..1] + FourBytes(high);
    assert WithLength(last, low, high) == last[..14] + misplaced + last[19..];
    if |kept| < 56 {
      assert StandardEnding(kept, low, high) == LastBlock(kept, length);
      BlocksMatch(last, misplaced, LastBlock(kept, length), end, length);
    } else {
      var first := kept + [0x80] + Zeros(63 - |kept|);
      assert first[56..] == end;
      assert StandardEnding(kept, low, high) == first + LastBlock(kept, length) by {
        assert Zeros(119 - |kept|) == Zeros(63 - |kept|) + Zeros(56);
      }
      BlocksMatch(last, misplaced, LastBlock(kept, length), end, length);
      assert Ending(kept, stale, low, high)[BLOCK_SIZE..] == WithLength(last, low, high);
      assert (first + LastBlock(kept, length))[BLOCK_SIZE..] == LastBlock(kept, length);
    }
  }

  lemma {:induction false} BlocksMatch(last: seq<u8>, misplaced: seq<u8>, standard: seq<u8>, end: seq<u8>,
      length: seq<u8>)
    requires |last| == BLOCK_SIZE == |standard| && |misplaced| == 5 && |end| == 8 == |length|
    requires last[..56] == standard[..56] && last[56..] == end && standard[56..] == length
    ensures last[..14] + misplaced + last[19..] == standard <==> end == length && last[14..19] == misplaced
  {
    var b := last[..14] + misplaced + last[19..];
    if b == standard {
      assert b[56..] == last[56..];
      assert b[14..19] == misplaced && standard[14..19] == last[..56][14..19];
    }
    if end == length && last[14..19] == misplaced {
      assert last == last[..56] + last[56..] && standard == standard[..56] + standard[56..];
      assert b == last[..14] + last[14..19] + last[19..];
    }
  }

  /** In a buffer that was all zeros, only the empty message is ended as the standard has it. */
  lemma {:induction false} OnlyNothingIsStandard(message: seq<u8>)
    requires |message| < 56
    ensures var low, high := LowBits(|message|), HighBits(|message|);
      Ending(message, Zeros(8), low, high) == StandardEnding(message, low, high) <==> message == []
  {
    var low, high := LowBits(|message|), HighBits(|message|);
    assert low == 8 * |message| && high == 0;
    hide Ending, StandardEnding, LowBits, HighBits, FourBytes;
    EndingIsStandard(message, Zeros(8), low, high);
    if message == [] {
      ZeroLength();
      assert LastBlock([], Zeros(8))[14..19] == Zeros(5);
    } else {
      NotZero(low);
      assert LengthBytes(low, 0)[0] == FourBytes(low)[0] && LengthBytes(low, 0)[1] == FourBytes(low)[1];
    }
  }

  lemma {:induction false} ZeroLength()
    ensures FourBytes(0) == Zeros(4) && LengthBytes(0, 0) == Zeros(8) && FourBytes(0)[..1] + FourBytes(0) == Zeros(5)
  {
    assert FourBytes(0) == [0, 0, 0, 0];
    hide FourBytes;
  }

  lemma {:induction false} NotZero(low: nat)
    requires 0 < low < 0x1_0000
    ensures FourBytes(low)[0] != 0 || FourBytes(low)[1] != 0
  {
    var a, b := low % 0x100, low / 0x100;
    assert low == a + 0x100 * b && b % 0x100 == b;
    ByteIsZero(a);
    ByteIsZero(b);
  }

  lemma {:induction false} ByteIsZero(n: nat)
    requires n < 0x100
    ensures n as u8 == 0 ==> n == 0
  {
  }
}
