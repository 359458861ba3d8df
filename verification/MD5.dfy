/**
 The functions of MD5, as section 3.4 of RFC 1321 gives them and as md5.cc computes them.
 */
module MD5Bits {
  type u32 = bv32

  function F(x: u32, y: u32, z: u32): u32 { (x & y) | (!x & z) }

  function G(x: u32, y: u32, z: u32): u32 { (x & z) | (y & !z) }

  function H(x: u32, y: u32, z: u32): u32 { x ^ y ^ z }

  function I(x: u32, y: u32, z: u32): u32 { y ^ (x | !z) }

  function F1(x: u32, y: u32, z: u32): u32 { z ^ (x & (y ^ z)) }

  function F2(x: u32, y: u32, z: u32): u32 { F1(z, x, y) }

  function F3(x: u32, y: u32, z: u32): u32 { x ^ y ^ z }

  function F4(x: u32, y: u32, z: u32): u32 { y ^ (x | !z) }

  lemma {:induction false} ChooseF(x: u32, y: u32, z: u32)
    ensures z ^ (x & (y ^ z)) == (x & y) | (!x & z)
  {
  }

  lemma {:induction false} ChooseG(x: u32, y: u32, z: u32)
    ensures y ^ (z & (x ^ y)) == (x & z) | (y & !z)
  {
  }

  /** The program's shorter forms are the same functions. */
  lemma {:induction false} SameF(x: u32, y: u32, z: u32)
    ensures F1(x, y, z) == F(x, y, z)
  {
    hide G, H, I, F2, F3, F4;
    calc {
      F1(x, y, z);
      z ^ (x & (y ^ z));
      { ChooseF(x, y, z); }
      (x & y) | (!x & z);
      F(x, y, z);
    }
  }

  lemma {:induction false} SameG(x: u32, y: u32, z: u32)
    ensures F2(x, y, z) == G(x, y, z)
  {
    hide F, H, I, F3, F4;
    calc {
      F2(x, y, z);
      y ^ (z & (x ^ y));
      { ChooseG(x, y, z); }
      (x & z) | (y & !z);
      G(x, y, z);
    }
  }
}

/** The operations of MD5 on words of 32 bits. */
module MD5Words {
  import MD5Bits

  datatype Word = Word(bits: bv32)

  function F(x: Word, y: Word, z: Word): Word { Word(MD5Bits.F(x.bits, y.bits, z.bits)) }

  function G(x: Word, y: Word, z: Word): Word { Word(MD5Bits.G(x.bits, y.bits, z.bits)) }

  function H(x: Word, y: Word, z: Word): Word { Word(MD5Bits.H(x.bits, y.bits, z.bits)) }

  function I(x: Word, y: Word, z: Word): Word { Word(MD5Bits.I(x.bits, y.bits, z.bits)) }

  function F1(x: Word, y: Word, z: Word): Word { Word(MD5Bits.F1(x.bits, y.bits, z.bits)) }

  function F2(x: Word, y: Word, z: Word): Word { Word(MD5Bits.F2(x.bits, y.bits, z.bits)) }

  function F3(x: Word, y: Word, z: Word): Word { Word(MD5Bits.F3(x.bits, y.bits, z.bits)) }

  function F4(x: Word, y: Word, z: Word): Word { Word(MD5Bits.F4(x.bits, y.bits, z.bits)) }

  lemma {:induction false} SameF1(x: Word, y: Word, z: Word)
    ensures F1(x, y, z) == F(x, y, z)
  {
    hide MD5Bits.F, MD5Bits.F1;
    MD5Bits.SameF(x.bits, y.bits, z.bits);
  }

  lemma {:induction false} SameF2(x: Word, y: Word, z: Word)
    ensures F2(x, y, z) == G(x, y, z)
  {
    hide MD5Bits.G, MD5Bits.F2;
    MD5Bits.SameG(x.bits, y.bits, z.bits);
  }

  lemma {:induction false} SameF3(x: Word, y: Word, z: Word)
    ensures F3(x, y, z) == H(x, y, z)
  {
  }

  lemma {:induction false} SameF4(x: Word, y: Word, z: Word)
    ensures F4(x, y, z) == I(x, y, z)
  {
  }

  function Sum(x: Word, y: Word): Word { Word(x.bits + y.bits) }

  function Rotate(w: Word, s: nat): Word
    requires s < 32
  {
    Word((w.bits << s) | (w.bits >> (32 - s)))
  }

  /** a = b + ((a + f + X + T) <<< s) */
  function Mixed(f: Word, w: Word, x: Word, data: Word, s: nat): Word
    requires s < 32
  {
    Sum(Rotate(Sum(w, Sum(f, data)), s), x)
  }
}

/**
 MD5: the transformation of one block, and the accumulation of a message that comes in pieces.
 */
module MD5 {
  import opened MD5Words

  type u8 = bv8

  /** The chaining value. */
  datatype Chain = Chain(a: Word, b: Word, c: Word, d: Word)

  const BLOCK_SIZE := 64

  const START: Chain := Chain(Word(0x67452301), Word(0xefcdab89), Word(0x98badcfe), Word(0x10325476))

  // ----- section 3.4 of RFC 1321

  /** The function of step i. */
  function Auxiliary(i: nat, x: Word, y: Word, z: Word): Word {
    if i < 16 then F(x, y, z) else if i < 32 then G(x, y, z) else if i < 48 then H(x, y, z) else I(x, y, z)
  }

  /** The word of the block that step i uses. */
  function WordIndex(i: nat): (k: nat)
    requires i < 64
    ensures k < 16
  {
    if i < 16 then i else if i < 32 then (5 * i + 1) % 16 else if i < 48 then (3 * i + 5) % 16 else (7 * i) % 16
  }

  /** How far step i rotates. */
  function Shift(i: nat): (s: nat)
    requires i < 64
    ensures s < 32
  {
    if i < 16 then (if i % 4 == 0 then 7 else if i % 4 == 1 then 12 else if i % 4 == 2 then 17 else 22)
    else if i < 32 then (if i % 4 == 0 then 5 else if i % 4 == 1 then 9 else if i % 4 == 2 then 14 else 20)
    else if i < 48 then (if i % 4 == 0 then 4 else if i % 4 == 1 then 11 else if i % 4 == 2 then 16 else 23)
    else (if i % 4 == 0 then 6 else if i % 4 == 1 then 10 else if i % 4 == 2 then 15 else 21)
  }

  function OneOf(i: nat, a: Word, b: Word, c: Word, d: Word): Word {
    if i % 4 == 0 then a else if i % 4 == 1 then b else if i % 4 == 2 then c else d
  }

  /** The table T, from its first element on. */
  function T(i: nat): Word
    requires i < 64
  {
    if i < 4 then OneOf(i, Word(0xd76aa478), Word(0xe8c7b756), Word(0x242070db), Word(0xc1bdceee))
    else if i < 8 then OneOf(i, Word(0xf57c0faf), Word(0x4787c62a), Word(0xa8304613), Word(0xfd469501))
    else if i < 12 then OneOf(i, Word(0x698098d8), Word(0x8b44f7af), Word(0xffff5bb1), Word(0x895cd7be))
    else if i < 16 then OneOf(i, Word(0x6b901122), Word(0xfd987193), Word(0xa679438e), Word(0x49b40821))
    else if i < 20 then OneOf(i, Word(0xf61e2562), Word(0xc040b340), Word(0x265e5a51), Word(0xe9b6c7aa))
    else if i < 24 then OneOf(i, Word(0xd62f105d), Word(0x02441453), Word(0xd8a1e681), Word(0xe7d3fbc8))
    else if i < 28 then OneOf(i, Word(0x21e1cde6), Word(0xc33707d6), Word(0xf4d50d87), Word(0x455a14ed))
    else if i < 32 then OneOf(i, Word(0xa9e3e905), Word(0xfcefa3f8), Word(0x676f02d9), Word(0x8d2a4c8a))
    else if i < 36 then OneOf(i, Word(0xfffa3942), Word(0x8771f681), Word(0x6d9d6122), Word(0xfde5380c))
    else if i < 40 then OneOf(i, Word(0xa4beea44), Word(0x4bdecfa9), Word(0xf6bb4b60), Word(0xbebfbc70))
    else if i < 44 then OneOf(i, Word(0x289b7ec6), Word(0xeaa127fa), Word(0xd4ef3085), Word(0x04881d05))
    else if i < 48 then OneOf(i, Word(0xd9d4d039), Word(0xe6db99e5), Word(0x1fa27cf8), Word(0xc4ac5665))
    else if i < 52 then OneOf(i, Word(0xf4292244), Word(0x432aff97), Word(0xab9423a7), Word(0xfc93a039))
    else if i < 56 then OneOf(i, Word(0x655b59c3), Word(0x8f0ccc92), Word(0xffeff47d), Word(0x85845dd1))
    else if i < 60 then OneOf(i, Word(0x6fa87e4f), Word(0xfe2ce6e0), Word(0xa3014314), Word(0x4e0811a1))
    else OneOf(i, Word(0xf7537e82), Word(0xbd3af235), Word(0x2ad7d2bb), Word(0xeb86d391))
  }

  /** One step: the four words change their places in turn. */
  function Step(m: seq<Word>, i: nat, v: Chain): Chain
    requires |m| == 16 && i < 64
  {
    Chain(v.d, Mixed(Auxiliary(i, v.b, v.c, v.d), v.a, v.b, Sum(m[WordIndex(i)], T(i)), Shift(i)), v.b, v.c)
  }

  /** Steps i, ..., j - 1. */
  function Steps(m: seq<Word>, i: nat, j: nat, v: Chain): Chain
    requires |m| == 16 && i <= j <= 64
    decreases j - i
  {
    if i == j then v else Steps(m, i + 1, j, Step(m, i, v))
  }

  function Plus(x: Chain, y: Chain): Chain { Chain(Sum(x.a, y.a), Sum(x.b, y.b), Sum(x.c, y.c), Sum(x.d, y.d)) }

  /** The transformation of the chaining value by one block of sixteen words. */
  function Transform(v: Chain, m: seq<Word>): Chain
    requires |m| == 16
  {
    Plus(v, Steps(m, 0, 64, v))
  }

  /** Four steps bring each word back to its place. */
  lemma {:induction false} FourSteps(m: seq<Word>, i: nat, j: nat, v: Chain)
    requires |m| == 16 && i + 4 <= j <= 64
    ensures
      var a := Mixed(Auxiliary(i, v.b, v.c, v.d), v.a, v.b, Sum(m[WordIndex(i)], T(i)), Shift(i));
      var d := Mixed(Auxiliary(i + 1, a, v.b, v.c), v.d, a, Sum(m[WordIndex(i + 1)], T(i + 1)), Shift(i + 1));
      var c := Mixed(Auxiliary(i + 2, d, a, v.b), v.c, d, Sum(m[WordIndex(i + 2)], T(i + 2)), Shift(i + 2));
      var b := Mixed(Auxiliary(i + 3, c, d, a), v.b, c, Sum(m[WordIndex(i + 3)], T(i + 3)), Shift(i + 3));
      Steps(m, i, j, v) == Steps(m, i + 4, j, Chain(a, b, c, d))
  {
    hide Mixed, Auxiliary, WordIndex, Shift, Sum, T, Steps;
    StepsMore(m, i, j, v);
    StepsMore(m, i + 1, j, Step(m, i, v));
    StepsMore(m, i + 2, j, Step(m, i + 1, Step(m, i, v)));
    StepsMore(m, i + 3, j, Step(m, i + 2, Step(m, i + 1, Step(m, i, v))));
  }

  lemma {:induction false} StepsMore(m: seq<Word>, i: nat, j: nat, v: Chain)
    requires |m| == 16 && i < j <= 64
    ensures Steps(m, i, j, v) == Steps(m, i + 1, j, Step(m, i, v))
  {
    hide Step;
  }

  lemma {:induction false} NoSteps(m: seq<Word>, j: nat, v: Chain)
    requires |m| == 16 && j <= 64
    ensures Steps(m, j, j, v) == v
  {
  }

  lemma {:induction false} StepsBoth(m: seq<Word>, i: nat, j: nat, k: nat, v: Chain)
    requires |m| == 16 && i <= j <= k <= 64
    ensures Steps(m, i, k, v) == Steps(m, j, k, Steps(m, i, j, v))
    decreases j - i
  {
    hide Step;
    if i < j {
      StepsBoth(m, i + 1, j, k, Step(m, i, v));
    }
  }

  /** Steps 0 to 3 of MD5Transform. */
  method Steps0(a0: Word, b0: Word, c0: Word, d0: Word, m: seq<Word>) returns (a: Word, b: Word, c: Word, d: Word)
    requires |m| == 16
    ensures Chain(a, b, c, d) == Steps(m, 0, 4, Chain(a0, b0, c0, d0))
  {
    hide F, G, H, I, F1, F2, F3, F4, Mixed, Sum, Steps, Step;
    a, b, c, d := a0, b0, c0, d0;
    FourSteps(m, 0, 4, Chain(a, b, c, d));
    SameF1(b, c, d);
    a := Mixed(F1(b, c, d), a, b, Sum(m[0], Word(0xd76aa478)), 7);
    SameF1(a, b, c);
    d := Mixed(F1(a, b, c), d, a, Sum(m[1], Word(0xe8c7b756)), 12);
    SameF1(d, a, b);
    c := Mixed(F1(d, a, b), c, d, Sum(m[2], Word(0x242070db)), 17);
    SameF1(c, d, a);
    b := Mixed(F1(c, d, a), b, c, Sum(m[3], Word(0xc1bdceee)), 22);
    NoSteps(m, 4, Chain(a, b, c, d));
  }

  /** Steps 4 to 7 of MD5Transform. */
  method Steps4(a0: Word, b0: Word, c0: Word, d0: Word, m: seq<Word>) returns (a: Word, b: Word, c: Word, d: Word)
    requires |m| == 16
    ensures Chain(a, b, c, d) == Steps(m, 4, 8, Chain(a0, b0, c0, d0))
  {
    hide F, G, H, I, F1, F2, F3, F4, Mixed, Sum, Steps, Step;
    a, b, c, d := a0, b0, c0, d0;
    FourSteps(m, 4, 8, Chain(a, b, c, d));
    SameF1(b, c, d);
    a := Mixed(F1(b, c, d), a, b, Sum(m[4], Word(0xf57c0faf)), 7);
    SameF1(a, b, c);
    d := Mixed(F1(a, b, c), d, a, Sum(m[5], Word(0x4787c62a)), 12);
    SameF1(d, a, b);
    c := Mixed(F1(d, a, b), c, d, Sum(m[6], Word(0xa8304613)), 17);
    SameF1(c, d, a);
    b := Mixed(F1(c, d, a), b, c, Sum(m[7], Word(0xfd469501)), 22);
    NoSteps(m, 8, Chain(a, b, c, d));
  }

  /** Steps 8 to 11 of MD5Transform. */
  method Steps8(a0: Word, b0: Word, c0: Word, d0: Word, m: seq<Word>) returns (a: Word, b: Word, c: Word, d: Word)
    requires |m| == 16
    ensures Chain(a, b, c, d) == Steps(m, 8, 12, Chain(a0, b0, c0, d0))
  {
    hide F, G, H, I, F1, F2, F3, F4, Mixed, Sum, Steps, Step;
    a, b, c, d := a0, b0, c0, d0;
    FourSteps(m, 8, 12, Chain(a, b, c, d));
    SameF1(b, c, d);
    a := Mixed(F1(b, c, d), a, b, Sum(m[8], Word(0x698098d8)), 7);
    SameF1(a, b, c);
    d := Mixed(F1(a, b, c), d, a, Sum(m[9], Word(0x8b44f7af)), 12);
    SameF1(d, a, b);
    c := Mixed(F1(d, a, b), c, d, Sum(m[10], Word(0xffff5bb1)), 17);
    SameF1(c, d, a);
    b := Mixed(F1(c, d, a), b, c, Sum(m[11], Word(0x895cd7be)), 22);
    NoSteps(m, 12, Chain(a, b, c, d));
  }

  /** Steps 12 to 15 of MD5Transform. */
  method Steps12(a0: Word, b0: Word, c0: Word, d0: Word, m: seq<Word>) returns (a: Word, b: Word, c: Word, d: Word)
    requires |m| == 16
    ensures Chain(a, b, c, d) == Steps(m, 12, 16, Chain(a0, b0, c0, d0))
  {
    hide F, G, H, I, F1, F2, F3, F4, Mixed, Sum, Steps, Step;
    a, b, c, d := a0, b0, c0, d0;
    FourSteps(m, 12, 16, Chain(a, b, c, d));
    SameF1(b, c, d);
    a := Mixed(F1(b, c, d), a, b, Sum(m[12], Word(0x6b901122)), 7);
    SameF1(a, b, c);
    d := Mixed(F1(a, b, c), d, a, Sum(m[13], Word(0xfd987193)), 12);
    SameF1(d, a, b);
    c := Mixed(F1(d, a, b), c, d, Sum(m[14], Word(0xa679438e)), 17);
    SameF1(c, d, a);
    b := Mixed(F1(c, d, a), b, c, Sum(m[15], Word(0x49b40821)), 22);
    NoSteps(m, 16, Chain(a, b, c, d));
  }

  /** Steps 16 to 19 of MD5Transform. */
  method Steps16(a0: Word, b0: Word, c0: Word, d0: Word, m: seq<Word>) returns (a: Word, b: Word, c: Word, d: Word)
    requires |m| == 16
    ensures Chain(a, b, c, d) == Steps(m, 16, 20, Chain(a0, b0, c0, d0))
  {
    hide F, G, H, I, F1, F2, F3, F4, Mixed, Sum, Steps, Step;
    a, b, c, d := a0, b0, c0, d0;
    FourSteps(m, 16, 20, Chain(a, b, c, d));
    SameF2(b, c, d);
    a := Mixed(F2(b, c, d), a, b, Sum(m[1], Word(0xf61e2562)), 5);
    SameF2(a, b, c);
    d := Mixed(F2(a, b, c), d, a, Sum(m[6], Word(0xc040b340)), 9);
    SameF2(d, a, b);
    c := Mixed(F2(d, a, b), c, d, Sum(m[11], Word(0x265e5a51)), 14);
    SameF2(c, d, a);
    b := Mixed(F2(c, d, a), b, c, Sum(m[0], Word(0xe9b6c7aa)), 20);
    NoSteps(m, 20, Chain(a, b, c, d));
  }

  /** Steps 20 to 23 of MD5Transform. */
  method Steps20(a0: Word, b0: Word, c0: Word, d0: Word, m: seq<Word>) returns (a: Word, b: Word, c: Word, d: Word)
    requires |m| == 16
    ensures Chain(a, b, c, d) == Steps(m, 20, 24, Chain(a0, b0, c0, d0))
  {
    hide F, G, H, I, F1, F2, F3, F4, Mixed, Sum, Steps, Step;
    a, b, c, d := a0, b0, c0, d0;
    FourSteps(m, 20, 24, Chain(a, b, c, d));
    SameF2(b, c, d);
    a := Mixed(F2(b, c, d), a, b, Sum(m[5], Word(0xd62f105d)), 5);
    SameF2(a, b, c);
    d := Mixed(F2(a, b, c), d, a, Sum(m[10], Word(0x02441453)), 9);
    SameF2(d, a, b);
    c := Mixed(F2(d, a, b), c, d, Sum(m[15], Word(0xd8a1e681)), 14);
    SameF2(c, d, a);
    b := Mixed(F2(c, d, a), b, c, Sum(m[4], Word(0xe7d3fbc8)), 20);
    NoSteps(m, 24, Chain(a, b, c, d));
  }

  /** Steps 24 to 27 of MD5Transform. */
  method Steps24(a0: Word, b0: Word, c0: Word, d0: Word, m: seq<Word>) returns (a: Word, b: Word, c: Word, d: Word)
    requires |m| == 16
    ensures Chain(a, b, c, d) == Steps(m, 24, 28, Chain(a0, b0, c0, d0))
  {
    hide F, G, H, I, F1, F2, F3, F4, Mixed, Sum, Steps, Step;
    a, b, c, d := a0, b0, c0, d0;
    FourSteps(m, 24, 28, Chain(a, b, c, d));
    SameF2(b, c, d);
    a := Mixed(F2(b, c, d), a, b, Sum(m[9], Word(0x21e1cde6)), 5);
    SameF2(a, b, c);
    d := Mixed(F2(a, b, c), d, a, Sum(m[14], Word(0xc33707d6)), 9);
    SameF2(d, a, b);
    c := Mixed(F2(d, a, b), c, d, Sum(m[3], Word(0xf4d50d87)), 14);
    SameF2(c, d, a);
    b := Mixed(F2(c, d, a), b, c, Sum(m[8], Word(0x455a14ed)), 20);
    NoSteps(m, 28, Chain(a, b, c, d));
  }

  /** Steps 28 to 31 of MD5Transform. */
  method Steps28(a0: Word, b0: Word, c0: Word, d0: Word, m: seq<Word>) returns (a: Word, b: Word, c: Word, d: Word)
    requires |m| == 16
    ensures Chain(a, b, c, d) == Steps(m, 28, 32, Chain(a0, b0, c0, d0))
  {
    hide F, G, H, I, F1, F2, F3, F4, Mixed, Sum, Steps, Step;
    a, b, c, d := a0, b0, c0, d0;
    FourSteps(m, 28, 32, Chain(a, b, c, d));
    SameF2(b, c, d);
    a := Mixed(F2(b, c, d), a, b, Sum(m[13], Word(0xa9e3e905)), 5);
    SameF2(a, b, c);
    d := Mixed(F2(a, b, c), d, a, Sum(m[2], Word(0xfcefa3f8)), 9);
    SameF2(d, a, b);
    c := Mixed(F2(d, a, b), c, d, Sum(m[7], Word(0x676f02d9)), 14);
    SameF2(c, d, a);
    b := Mixed(F2(c, d, a), b, c, Sum(m[12], Word(0x8d2a4c8a)), 20);
    NoSteps(m, 32, Chain(a, b, c, d));
  }

  /** Steps 32 to 35 of MD5Transform. */
  method Steps32(a0: Word, b0: Word, c0: Word, d0: Word, m: seq<Word>) returns (a: Word, b: Word, c: Word, d: Word)
    requires |m| == 16
    ensures Chain(a, b, c, d) == Steps(m, 32, 36, Chain(a0, b0, c0, d0))
  {
    hide F, G, H, I, F1, F2, F3, F4, Mixed, Sum, Steps, Step;
    a, b, c, d := a0, b0, c0, d0;
    FourSteps(m, 32, 36, Chain(a, b, c, d));
    SameF3(b, c, d);
    a := Mixed(F3(b, c, d), a, b, Sum(m[5], Word(0xfffa3942)), 4);
    SameF3(a, b, c);
    d := Mixed(F3(a, b, c), d, a, Sum(m[8], Word(0x8771f681)), 11);
    SameF3(d, a, b);
    c := Mixed(F3(d, a, b), c, d, Sum(m[11], Word(0x6d9d6122)), 16);
    SameF3(c, d, a);
    b := Mixed(F3(c, d, a), b, c, Sum(m[14], Word(0xfde5380c)), 23);
    NoSteps(m, 36, Chain(a, b, c, d));
  }

  /** Steps 36 to 39 of MD5Transform. */
  method Steps36(a0: Word, b0: Word, c0: Word, d0: Word, m: seq<Word>) returns (a: Word, b: Word, c: Word, d: Word)
    requires |m| == 16
    ensures Chain(a, b, c, d) == Steps(m, 36, 40, Chain(a0, b0, c0, d0))
  {
    hide F, G, H, I, F1, F2, F3, F4, Mixed, Sum, Steps, Step;
    a, b, c, d := a0, b0, c0, d0;
    FourSteps(m, 36, 40, Chain(a, b, c, d));
    SameF3(b, c, d);
    a := Mixed(F3(b, c, d), a, b, Sum(m[1], Word(0xa4beea44)), 4);
    SameF3(a, b, c);
    d := Mixed(F3(a, b, c), d, a, Sum(m[4], Word(0x4bdecfa9)), 11);
    SameF3(d, a, b);
    c := Mixed(F3(d, a, b), c, d, Sum(m[7], Word(0xf6bb4b60)), 16);
    SameF3(c, d, a);
    b := Mixed(F3(c, d, a), b, c, Sum(m[10], Word(0xbebfbc70)), 23);
    NoSteps(m, 40, Chain(a, b, c, d));
  }

  /** Steps 40 to 43 of MD5Transform. */
  method Steps40(a0: Word, b0: Word, c0: Word, d0: Word, m: seq<Word>) returns (a: Word, b: Word, c: Word, d: Word)
    requires |m| == 16
    ensures Chain(a, b, c, d) == Steps(m, 40, 44, Chain(a0, b0, c0, d0))
  {
    hide F, G, H, I, F1, F2, F3, F4, Mixed, Sum, Steps, Step;
    a, b, c, d := a0, b0, c0, d0;
    FourSteps(m, 40, 44, Chain(a, b, c, d));
    SameF3(b, c, d);
    a := Mixed(F3(b, c, d), a, b, Sum(m[13], Word(0x289b7ec6)), 4);
    SameF3(a, b, c);
    d := Mixed(F3(a, b, c), d, a, Sum(m[0], Word(0xeaa127fa)), 11);
    SameF3(d, a, b);
    c := Mixed(F3(d, a, b), c, d, Sum(m[3], Word(0xd4ef3085)), 16);
    SameF3(c, d, a);
    b := Mixed(F3(c, d, a), b, c, Sum(m[6], Word(0x04881d05)), 23);
    NoSteps(m, 44, Chain(a, b, c, d));
  }

  /** Steps 44 to 47 of MD5Transform. */
  method Steps44(a0: Word, b0: Word, c0: Word, d0: Word, m: seq<Word>) returns (a: Word, b: Word, c: Word, d: Word)
    requires |m| == 16
    ensures Chain(a, b, c, d) == Steps(m, 44, 48, Chain(a0, b0, c0, d0))
  {
    hide F, G, H, I, F1, F2, F3, F4, Mixed, Sum, Steps, Step;
    a, b, c, d := a0, b0, c0, d0;
    FourSteps(m, 44, 48, Chain(a, b, c, d));
    SameF3(b, c, d);
    a := Mixed(F3(b, c, d), a, b, Sum(m[9], Word(0xd9d4d039)), 4);
    SameF3(a, b, c);
    d := Mixed(F3(a, b, c), d, a, Sum(m[12], Word(0xe6db99e5)), 11);
    SameF3(d, a, b);
    c := Mixed(F3(d, a, b), c, d, Sum(m[15], Word(0x1fa27cf8)), 16);
    SameF3(c, d, a);
    b := Mixed(F3(c, d, a), b, c, Sum(m[2], Word(0xc4ac5665)), 23);
    NoSteps(m, 48, Chain(a, b, c, d));
  }

  /** Steps 48 to 51 of MD5Transform. */
  method Steps48(a0: Word, b0: Word, c0: Word, d0: Word, m: seq<Word>) returns (a: Word, b: Word, c: Word, d: Word)
    requires |m| == 16
    ensures Chain(a, b, c, d) == Steps(m, 48, 52, Chain(a0, b0, c0, d0))
  {
    hide F, G, H, I, F1, F2, F3, F4, Mixed, Sum, Steps, Step;
    a, b, c, d := a0, b0, c0, d0;
    FourSteps(m, 48, 52, Chain(a, b, c, d));
    SameF4(b, c, d);
    a := Mixed(F4(b, c, d), a, b, Sum(m[0], Word(0xf4292244)), 6);
    SameF4(a, b, c);
    d := Mixed(F4(a, b, c), d, a, Sum(m[7], Word(0x432aff97)), 10);
    SameF4(d, a, b);
    c := Mixed(F4(d, a, b), c, d, Sum(m[14], Word(0xab9423a7)), 15);
    SameF4(c, d, a);
    b := Mixed(F4(c, d, a), b, c, Sum(m[5], Word(0xfc93a039)), 21);
    NoSteps(m, 52, Chain(a, b, c, d));
  }

  /** Steps 52 to 55 of MD5Transform. */
  method Steps52(a0: Word, b0: Word, c0: Word, d0: Word, m: seq<Word>) returns (a: Word, b: Word, c: Word, d: Word)
    requires |m| == 16
    ensures Chain(a, b, c, d) == Steps(m, 52, 56, Chain(a0, b0, c0, d0))
  {
    hide F, G, H, I, F1, F2, F3, F4, Mixed, Sum, Steps, Step;
    a, b, c, d := a0, b0, c0, d0;
    FourSteps(m, 52, 56, Chain(a, b, c, d));
    SameF4(b, c, d);
    a := Mixed(F4(b, c, d), a, b, Sum(m[12], Word(0x655b59c3)), 6);
    SameF4(a, b, c);
    d := Mixed(F4(a, b, c), d, a, Sum(m[3], Word(0x8f0ccc92)), 10);
    SameF4(d, a, b);
    c := Mixed(F4(d, a, b), c, d, Sum(m[10], Word(0xffeff47d)), 15);
    SameF4(c, d, a);
    b := Mixed(F4(c, d, a), b, c, Sum(m[1], Word(0x85845dd1)), 21);
    NoSteps(m, 56, Chain(a, b, c, d));
  }

  /** Steps 56 to 59 of MD5Transform. */
  method Steps56(a0: Word, b0: Word, c0: Word, d0: Word, m: seq<Word>) returns (a: Word, b: Word, c: Word, d: Word)
    requires |m| == 16
    ensures Chain(a, b, c, d) == Steps(m, 56, 60, Chain(a0, b0, c0, d0))
  {
    hide F, G, H, I, F1, F2, F3, F4, Mixed, Sum, Steps, Step;
    a, b, c, d := a0, b0, c0, d0;
    FourSteps(m, 56, 60, Chain(a, b, c, d));
    SameF4(b, c, d);
    a := Mixed(F4(b, c, d), a, b, Sum(m[8], Word(0x6fa87e4f)), 6);
    SameF4(a, b, c);
    d := Mixed(F4(a, b, c), d, a, Sum(m[15], Word(0xfe2ce6e0)), 10);
    SameF4(d, a, b);
    c := Mixed(F4(d, a, b), c, d, Sum(m[6], Word(0xa3014314)), 15);
    SameF4(c, d, a);
    b := Mixed(F4(c, d, a), b, c, Sum(m[13], Word(0x4e0811a1)), 21);
    NoSteps(m, 60, Chain(a, b, c, d));
  }

  /** Steps 60 to 63 of MD5Transform. */
  method Steps60(a0: Word, b0: Word, c0: Word, d0: Word, m: seq<Word>) returns (a: Word, b: Word, c: Word, d: Word)
    requires |m| == 16
    ensures Chain(a, b, c, d) == Steps(m, 60, 64, Chain(a0, b0, c0, d0))
  {
    hide F, G, H, I, F1, F2, F3, F4, Mixed, Sum, Steps, Step;
    a, b, c, d := a0, b0, c0, d0;
    FourSteps(m, 60, 64, Chain(a, b, c, d));
    SameF4(b, c, d);
    a := Mixed(F4(b, c, d), a, b, Sum(m[4], Word(0xf7537e82)), 6);
    SameF4(a, b, c);
    d := Mixed(F4(a, b, c), d, a, Sum(m[11], Word(0xbd3af235)), 10);
    SameF4(d, a, b);
    c := Mixed(F4(d, a, b), c, d, Sum(m[2], Word(0x2ad7d2bb)), 15);
    SameF4(c, d, a);
    b := Mixed(F4(c, d, a), b, c, Sum(m[9], Word(0xeb86d391)), 21);
    NoSteps(m, 64, Chain(a, b, c, d));
  }

  /** The transformation as the program performs it is that of RFC 1321. */
  method MD5Transform(v: Chain, m: seq<Word>) returns (r: Chain)
    requires |m| == 16
    ensures r == Transform(v, m)
  {
    hide *;
    var a, b, c, d := v.a, v.b, v.c, v.d;
    NoSteps(m, 0, v);
    a, b, c, d := Steps0(a, b, c, d, m);
    StepsBoth(m, 0, 0, 4, v);
    a, b, c, d := Steps4(a, b, c, d, m);
    StepsBoth(m, 0, 4, 8, v);
    a, b, c, d := Steps8(a, b, c, d, m);
    StepsBoth(m, 0, 8, 12, v);
    a, b, c, d := Steps12(a, b, c, d, m);
    StepsBoth(m, 0, 12, 16, v);
    a, b, c, d := Steps16(a, b, c, d, m);
    StepsBoth(m, 0, 16, 20, v);
    a, b, c, d := Steps20(a, b, c, d, m);
    StepsBoth(m, 0, 20, 24, v);
    a, b, c, d := Steps24(a, b, c, d, m);
    StepsBoth(m, 0, 24, 28, v);
    a, b, c, d := Steps28(a, b, c, d, m);
    StepsBoth(m, 0, 28, 32, v);
    a, b, c, d := Steps32(a, b, c, d, m);
    StepsBoth(m, 0, 32, 36, v);
    a, b, c, d := Steps36(a, b, c, d, m);
    StepsBoth(m, 0, 36, 40, v);
    a, b, c, d := Steps40(a, b, c, d, m);
    StepsBoth(m, 0, 40, 44, v);
    a, b, c, d := Steps44(a, b, c, d, m);
    StepsBoth(m, 0, 44, 48, v);
    a, b, c, d := Steps48(a, b, c, d, m);
    StepsBoth(m, 0, 48, 52, v);
    a, b, c, d := Steps52(a, b, c, d, m);
    StepsBoth(m, 0, 52, 56, v);
    a, b, c, d := Steps56(a, b, c, d, m);
    StepsBoth(m, 0, 56, 60, v);
    a, b, c, d := Steps60(a, b, c, d, m);
    StepsBoth(m, 0, 60, 64, v);
    TransformIs(v, m);
    return Chain(Sum(v.a, a), Sum(v.b, b), Sum(v.c, c), Sum(v.d, d));
  }

  lemma {:induction false} TransformIs(v: Chain, m: seq<Word>)
    requires |m| == 16
    ensures var s := Steps(m, 0, 64, v);
      Transform(v, m) == Chain(Sum(v.a, s.a), Sum(v.b, s.b), Sum(v.c, s.c), Sum(v.d, s.d))
  {
    hide Steps, Sum;
  }

  // ----- blocks

  /** Four bytes as a word, the least significant byte first. */
  function WordAt(block: seq<u8>, i: nat): Word
    requires 4 * i + 4 <= |block|
  {
    Word(((((block[4 * i + 3] as bv32) << 8) | (block[4 * i + 2] as bv32)) << 16)
         | (((block[4 * i + 1] as bv32) << 8) | (block[4 * i] as bv32)))
  }

  /** Byte k of a word, the least significant one first. */
  function ByteOf(w: Word, k: nat): u8 {
    if k == 0 then (w.bits & 0xFF) as u8
    else if k == 1 then ((w.bits >> 8) & 0xFF) as u8
    else if k == 2 then ((w.bits >> 16) & 0xFF) as u8
    else ((w.bits >> 24) & 0xFF) as u8
  }

  lemma {:induction false} JoinedBytes(a: u8, b: u8, c: u8, d: u8)
    ensures var w := ((((d as bv32) << 8) | (c as bv32)) << 16) | (((b as bv32) << 8) | (a as bv32));
      && (w & 0xFF) as u8 == a && ((w >> 8) & 0xFF) as u8 == b
      && ((w >> 16) & 0xFF) as u8 == c && ((w >> 24) & 0xFF) as u8 == d
  {
  }

  /** By section 2 of RFC 1321 each four bytes are a word with the low-order byte first. */
  lemma {:induction false} WordHasBytes(block: seq<u8>, i: nat, k: nat)
    requires 4 * i + 4 <= |block| && k < 4
    ensures ByteOf(WordAt(block, i), k) == block[4 * i + k]
  {
    JoinedBytes(block[4 * i], block[4 * i + 1], block[4 * i + 2], block[4 * i + 3]);
  }

  /** By section 3.3 of RFC 1321 the chaining value starts with these bytes. */
  lemma {:induction false} StartHasBytes()
    ensures forall k: nat :: k < 4 ==>
      && ByteOf(START.a, k) == [0x01, 0x23, 0x45, 0x67][k] && ByteOf(START.b, k) == [0x89, 0xab, 0xcd, 0xef][k]
      && ByteOf(START.c, k) == [0xfe, 0xdc, 0xba, 0x98][k] && ByteOf(START.d, k) == [0x76, 0x54, 0x32, 0x10][k]
  {
    forall k: nat | k < 4
      ensures ByteOf(START.a, k) == [0x01, 0x23, 0x45, 0x67][k] && ByteOf(START.b, k) == [0x89, 0xab, 0xcd, 0xef][k]
      ensures ByteOf(START.c, k) == [0xfe, 0xdc, 0xba, 0x98][k] && ByteOf(START.d, k) == [0x76, 0x54, 0x32, 0x10][k]
    {
      if k == 0 {
      } else if k == 1 {
      } else if k == 2 {
      } else {
      }
    }
  }

  function Words(block: seq<u8>): (m: seq<Word>)
    requires |block| == BLOCK_SIZE
    ensures |m| == 16
  {
    seq(16, i requires 0 <= i < 16 => WordAt(block, i))
  }

  function TransformBlock(v: Chain, block: seq<u8>): Chain
    requires |block| == BLOCK_SIZE
  {
    Transform(v, Words(block))
  }

  // ----- messages

  /** The chaining value after the whole blocks of a message. */
  function ChainOf(message: seq<u8>): Chain {
    var n := |message|;
    if n < BLOCK_SIZE then START
    else if n % BLOCK_SIZE != 0 then ChainOf(message[..n - n % BLOCK_SIZE])
    else TransformBlock(ChainOf(message[..n - BLOCK_SIZE]), message[n - BLOCK_SIZE..])
  }

  /** What is left of a message behind its last whole block. */
  function Residue(message: seq<u8>): (r: seq<u8>)
    ensures |r| == |message| % BLOCK_SIZE
  {
    message[|message| - |message| % BLOCK_SIZE..]
  }

  lemma {:induction false} ChainOfLast(message: seq<u8>)
    requires |message| >= BLOCK_SIZE && |message| % BLOCK_SIZE == 0
    ensures var n := |message| - BLOCK_SIZE;
      ChainOf(message) == TransformBlock(ChainOf(message[..n]), message[n..])
  {
    hide TransformBlock, Words, Transform;
  }

  lemma {:induction false} ChainOfCut(message: seq<u8>)
    requires |message| >= BLOCK_SIZE && |message| % BLOCK_SIZE != 0
    ensures ChainOf(message) == ChainOf(message[..|message| - |message| % BLOCK_SIZE])
  {
    hide TransformBlock, Words, Transform;
  }

  lemma {:induction false} ChainOfLittle(message: seq<u8>)
    requires |message| < BLOCK_SIZE
    ensures ChainOf(message) == START
  {
    hide TransformBlock, Words, Transform;
  }

  lemma {:induction false} Parts<T>(a: seq<T>, b: seq<T>)
    ensures (a + b)[..|a|] == a && (a + b)[|a|..] == b && |a + b| == |a| + |b|
  {
  }

  lemma {:induction false} OneBlockMore(n: nat)
    requires n % BLOCK_SIZE == 0
    ensures (n + BLOCK_SIZE) % BLOCK_SIZE == 0
  {
  }

  /** One block more. */
  lemma {:induction false} ChainOfBlock(message: seq<u8>, block: seq<u8>)
    requires |message| % BLOCK_SIZE == 0 && |block| == BLOCK_SIZE
    ensures ChainOf(message + block) == TransformBlock(ChainOf(message), block)
    ensures |message + block| % BLOCK_SIZE == 0
  {
    hide *;
    Parts(message, block);
    OneBlockMore(|message|);
    ChainOfLast(message + block);
  }

  /** Bytes that do not fill a block. */
  lemma {:induction false} ChainOfBytes(message: seq<u8>, bytes: seq<u8>)
    requires |message| % BLOCK_SIZE == 0 && |bytes| < BLOCK_SIZE
    ensures ChainOf(message + bytes) == ChainOf(message) && Residue(message + bytes) == bytes
  {
    hide *;
    var all := message + bytes;
    Parts(message, bytes);
    SmallSum(|message|, |bytes|);
    ResidueIs(message, bytes);
    if bytes == [] {
      assert all == message;
    } else if |all| >= BLOCK_SIZE {
      ChainOfCut(all);
    } else {
      ChainOfLittle(all);
      ChainOfLittle(message);
    }
  }

  lemma {:induction false} ResidueIs(whole: seq<u8>, bytes: seq<u8>)
    requires |whole| % BLOCK_SIZE == 0 && |bytes| < BLOCK_SIZE
    ensures Residue(whole + bytes) == bytes
  {
    Parts(whole, bytes);
    SmallSum(|whole|, |bytes|);
  }

  /** The whole blocks of a message. */
  function Whole(message: seq<u8>): (w: seq<u8>)
    ensures |w| % BLOCK_SIZE == 0 && w + Residue(message) == message
  {
    message[..|message| - |message| % BLOCK_SIZE]
  }

  lemma {:induction false} ChainOfWhole(message: seq<u8>)
    ensures ChainOf(Whole(message)) == ChainOf(message)
  {
    ChainOfBytes(Whole(message), Residue(message));
  }

  // ----- the length

  const WORD := 0x1_0000_0000

  /** The two words of the length in bits, modulo 2^64. */
  function LowBits(length: nat): nat { 8 * length % WORD }

  function HighBits(length: nat): nat { 8 * length / WORD % WORD }

  lemma {:induction false} DivMod(x: nat, q: nat, r: nat)
    requires x == WORD * q + r && r < WORD
    ensures x / WORD == q && x % WORD == r
  {
  }

  /** Adding to the length as the program does, with the carry found by comparing. */
  lemma {:induction false} BitsMore(n: nat, len: nat)
    ensures var low := (LowBits(n) + len % WORD * 8 % WORD) % WORD;
      var carried := if low < LowBits(n) then (HighBits(n) + 1) % WORD else HighBits(n);
      low == LowBits(n + len) && (carried + len / 0x2000_0000 % WORD) % WORD == HighBits(n + len)
  {
    var t, qn := 8 * n % WORD, 8 * n / WORD;
    var l, ql := 8 * len % WORD, len / 0x2000_0000;
    LengthParts(len);
    var s := t + l;
    assert 8 * (n + len) == WORD * (qn + ql) + s;
    var carry := if s >= WORD then 1 else 0;
    DivMod(8 * (n + len), qn + ql + carry, s - WORD * carry);
    assert s % WORD == s - WORD * carry;
    AddMod(qn, carry, ql);
  }

  lemma {:induction false} ModDrop(k: nat, b: nat)
    ensures (WORD * k + b) % WORD == b % WORD
  {
    DivMod(WORD * k + b, k + b / WORD, b % WORD);
  }

  /** Only the low word of a length counts for the low word of eight times it. */
  lemma {:induction false} LowPart(len: nat)
    ensures len % WORD * 8 % WORD == 8 * len % WORD
  {
    var k, m := len / WORD, len % WORD;
    assert 8 * len == WORD * (8 * k) + 8 * m;
    ModDrop(8 * k, 8 * m);
  }

  lemma {:induction false} LengthParts(len: nat)
    ensures len % WORD * 8 % WORD == 8 * len % WORD && 8 * len == WORD * (len / 0x2000_0000) + 8 * len % WORD
  {
    LowPart(len);
    var q, r := len / 0x2000_0000, len % 0x2000_0000;
    assert 8 * len == WORD * q + 8 * r;
    DivMod(8 * len, q, 8 * r);
  }

  lemma {:induction false} AddMod(q: nat, carry: nat, more: nat)
    requires carry <= 1
    ensures ((if carry == 1 then (q % WORD + 1) % WORD else q % WORD) + more % WORD) % WORD == (q + more + carry) % WORD
  {
  }

  /** How many bytes of a block are used, from the low word of the length. */
  lemma {:induction false} UsedBytes(n: nat)
    ensures LowBits(n) / 8 % BLOCK_SIZE == n % BLOCK_SIZE
  {
    var q, r := n / 0x2000_0000, n % 0x2000_0000;
    assert 8 * n == WORD * q + 8 * r;
    DivMod(8 * n, q, 8 * r);
    SameRemainder(q, r);
  }

  lemma {:induction false} SameRemainder(q: nat, r: nat)
    ensures 8 * r / 8 % BLOCK_SIZE == (0x2000_0000 * q + r) % BLOCK_SIZE
  {
  }

  // ----- the program

  class MD5Context {
    var chain: Chain
    var bits0: nat
    var bits1: nat
    const block: array<u8>
    ghost var message: seq<u8>

    /** The context holds the message so far. */
    ghost predicate Valid()
      reads this, block
    {
      && block.Length == BLOCK_SIZE
      && chain == ChainOf(message)
      && bits0 == LowBits(|message|) && bits1 == HighBits(|message|)
      && block[..|message| % BLOCK_SIZE] == Residue(message)
    }

    /** MD5Init. */
    constructor ()
      ensures Valid() && message == [] && fresh(block)
    {
      chain := START;
      bits0, bits1 := 0, 0;
      block := new u8[BLOCK_SIZE];
      message := [];
    }

    method CopyIn(at: nat, bytes: seq<u8>)
      requires at + |bytes| <= block.Length
      modifies block
      ensures block[at..at + |bytes|] == bytes
      ensures block[..at] == old(block[..at]) && block[at + |bytes|..] == old(block[at + |bytes|..])
    {
      for i := 0 to |bytes|
        invariant forall k :: 0 <= k < i ==> block[at + k] == bytes[k]
        invariant forall k :: 0 <= k < at || at + |bytes| <= k < block.Length ==> block[k] == old(block[k])
      {
        block[at + i] := bytes[i];
      }
    }

    /** Transform by what is in the block. */
    method Apply(ghost before: seq<u8>, ghost bytes: seq<u8>)
      requires block.Length == BLOCK_SIZE && block[..] == bytes
      requires |before| % BLOCK_SIZE == 0 && chain == ChainOf(before)
      modifies this`chain
      ensures chain == ChainOf(before + bytes) && |before + bytes| % BLOCK_SIZE == 0
    {
      hide ChainOf, Transform, WordAt;
      ChainOfBlock(before, bytes);
      chain := MD5Transform(chain, Words(block[..]));
    }

    /**
     Add bytes to the message.  The chaining value, what is kept in the block and the length depend
     only on all the bytes so far, not on how they were divided.
     */
    method Update(bytes: seq<u8>)
      requires Valid()
      modifies this, block
      ensures Valid() && message == old(message) + bytes
    {
      hide ChainOf, LowBits, HighBits, Words, Transform;
      var t := bits0;
      BitsMore(|message|, |bytes|);
      UsedBytes(|message|);
      bits0 := (t + |bytes| % WORD * 8 % WORD) % WORD;
      if bits0 < t {
        bits1 := (bits1 + 1) % WORD;
      }
      bits1 := (bits1 + |bytes| / 0x2000_0000 % WORD) % WORD;
      AddBytes(t / 8 % BLOCK_SIZE, bytes);
    }

    /** The rest of MD5Update, behind the length. */
    method AddBytes(used: nat, bytes: seq<u8>)
      requires block.Length == BLOCK_SIZE && used == |message| % BLOCK_SIZE
      requires chain == ChainOf(message) && block[..used] == Residue(message)
      modifies this`chain, this`message, block
      ensures message == old(message) + bytes && chain == ChainOf(message)
      ensures block[..|message| % BLOCK_SIZE] == Residue(message)
    {
      hide ChainOf, Residue, Whole;
      var rest := bytes;
      ghost var done := Whole(message);
      ChainOfWhole(message);
      if used > 0 {
        var n := BLOCK_SIZE - used;
        if |rest| < n {
          CopyIn(used, rest);
          assert block[..used + |rest|] == Residue(message) + rest;
          ChainOfBytes(done, Residue(message) + rest);
          assert done + (Residue(message) + rest) == message + bytes;
          message := message + bytes;
          SmallSum(|done|, used + |rest|);
          return;
        }
        CopyIn(used, rest[..n]);
        assert block[..] == Residue(message) + rest[..n];
        Apply(done, Residue(message) + rest[..n]);
        done := done + (Residue(message) + rest[..n]);
        rest := rest[n..];
        assert done + rest == message + bytes;
      } else {
        NoResidue(message);
        assert done + rest == message + bytes;
      }
      while |rest| >= BLOCK_SIZE
        invariant done + rest == old(message) + bytes && message == old(message)
        invariant |done| % BLOCK_SIZE == 0 && chain == ChainOf(done)
      {
        CopyIn(0, rest[..BLOCK_SIZE]);
        assert block[..] == rest[..BLOCK_SIZE];
        Apply(done, rest[..BLOCK_SIZE]);
        assert done + rest[..BLOCK_SIZE] + rest[BLOCK_SIZE..] == done + rest;
        done := done + rest[..BLOCK_SIZE];
        rest := rest[BLOCK_SIZE..];
      }
      CopyIn(0, rest);
      ChainOfBytes(done, rest);
      message := message + bytes;
      SmallSum(|done|, |rest|);
    }
  }

  lemma {:induction false} SmallSum(whole: nat, rest: nat)
    requires whole % BLOCK_SIZE == 0 && rest < BLOCK_SIZE
    ensures (whole + rest) % BLOCK_SIZE == rest
  {
  }

  lemma {:induction false} NoResidue(message: seq<u8>)
    requires |message| % BLOCK_SIZE == 0
    ensures Whole(message) == message && Residue(message) == []
  {
  }
}
