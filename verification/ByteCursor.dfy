/**
 `ByteCursor` of byte_cursor.h: numbers of various widths read from a buffer, in either byte order.
 */
module ByteCursors {
  type Byte = b: int | 0 <= b < 256

  // ----- numbers as bytes

  function Power(size: nat): (p: nat)
    ensures p > 0
  {
    if size == 0 then 1 else 256 * Power(size - 1)
  }

  /** The number whose bytes these are, the least significant one first. */
  function Little(bytes: seq<Byte>): (v: nat)
    ensures v < Power(|bytes|)
  {
    if bytes == [] then 0 else bytes[0] + 256 * Little(bytes[1..])
  }

  /** The number whose bytes these are, the most significant one first. */
  function Big(bytes: seq<Byte>): (v: nat)
    ensures v < Power(|bytes|)
  {
    if bytes == [] then 0 else 256 * Big(bytes[..|bytes| - 1]) + bytes[|bytes| - 1]
  }

  function Reversed(bytes: seq<Byte>): (r: seq<Byte>)
    ensures |r| == |bytes|
  {
    if bytes == [] then [] else Reversed(bytes[1..]) + [bytes[0]]
  }

  /** The two byte orders mirror each other. */
  lemma {:induction false} BigIsLittleReversed(bytes: seq<Byte>)
    ensures Big(Reversed(bytes)) == Little(bytes)
  {
    if bytes != [] {
      BigIsLittleReversed(bytes[1..]);
      assert Reversed(bytes)[..|bytes| - 1] == Reversed(bytes[1..]);
    }
  }

  function Number(bytes: seq<Byte>, bigEndian: bool): (v: nat)
    ensures v < Power(|bytes|)
  {
    if bigEndian then Big(bytes) else Little(bytes)
  }

  /** What a bit pattern of `size` bytes means as a signed number. */
  function Signed(pattern: nat, size: nat): int {
    if 2 * pattern < Power(size) then pattern else pattern - Power(size)
  }

  lemma {:induction false} PowerGrows(size: nat, width: nat)
    requires size <= width
    ensures Power(size) <= Power(width)
    ensures size < width ==> 256 * Power(size) <= Power(width)
    ensures size > 0 ==> Power(size) % 2 == 0
    decreases width
  {
    if size < width {
      PowerGrows(size, width - 1);
    }
  }

  /** Make a number of `size` bytes one of `width` bytes, repeating the sign. */
  function Extended(v: nat, size: nat, width: nat): int {
    if 2 * v < Power(size) then v else v + Power(width) - Power(size)
  }

  /** The signed meaning is kept. */
  lemma {:induction false} ExtendedKeepsSign(v: nat, size: nat, width: nat)
    requires v < Power(size) && size <= width
    ensures 0 <= Extended(v, size, width) < Power(width)
    ensures Signed(Extended(v, size, width), width) == Signed(v, size)
  {
    PowerGrows(size, width);
  }

  // ----- the cursor

  class ByteCursor {
    const buffer: seq<Byte>
    const bigEndian: bool
    var here: nat
    var complete: bool

    ghost predicate Valid()
      reads this
    {
      here <= |buffer|
    }

    constructor (buffer: seq<Byte>, bigEndian: bool)
      ensures Valid() && this.buffer == buffer && this.bigEndian == bigEndian && here == 0 && complete
    {
      this.buffer, this.bigEndian := buffer, bigEndian;
      here, complete := 0, true;
    }

    /** If there are not enough bytes the cursor moves to the end for good. */
    method CheckAvailable(size: nat) returns (ok: bool)
      requires Valid()
      modifies this
      ensures Valid() && ok == (old(here) + size <= |buffer|)
      ensures if ok then here == old(here) && complete == old(complete) else here == |buffer| && !complete
    {
      if |buffer| - here >= size {
        return true;
      }
      here, complete := |buffer|, false;
      return false;
    }

    /** The loops over the bytes, from the most significant to the least. */
    method Accumulate(bytes: seq<Byte>) returns (v: nat)
      ensures v == Number(bytes, bigEndian)
    {
      v := 0;
      var size := |bytes|;
      if bigEndian {
        assert bytes[..0] == [];
        for i := 0 to size
          invariant v == Big(bytes[..i])
        {
          assert bytes[..i + 1][..i] == bytes[..i];
          v := 256 * v + bytes[i];
        }
        assert bytes[..size] == bytes;
      } else {
        assert bytes[size..] == [];
        for i := size downto 0
          invariant v == Little(bytes[i..])
        {
          assert bytes[i..][1..] == bytes[i + 1..];
          v := 256 * v + bytes[i];
        }
        assert bytes[0..] == bytes;
      }
    }

    /**
     Read a number of `size` bytes into a variable of `width` bytes.  The result is the bit pattern;
     one that cannot be read is a dummy.
     */
    method Read(size: nat, isSigned: bool, width: nat) returns (result: nat)
      requires Valid() && 0 < size <= width
      modifies this
      ensures Valid()
      ensures if old(here) + size <= |buffer| then
                var v := Number(buffer[old(here)..old(here) + size], bigEndian);
                here == old(here) + size && complete == old(complete)
                && result == (if isSigned then Extended(v, size, width) else v)
              else here == |buffer| && !complete
    {
      var available := CheckAvailable(size);
      if !available {
        return 0xdeadbeef % Power(width);
      }
      var bytes := buffer[here..here + size];
      var v := Accumulate(bytes);
      if isSigned {
        ByFlipping(v, size, width);
        if size < width {
          v := Flipped(v, size, width);
        }
      }
      here := here + size;
      return v;
    }
  }

  /** Flip the sign bit and subtract it, in arithmetic modulo the width. */
  function Flipped(v: nat, size: nat, width: nat): nat
    requires 0 < size < width && v < Power(size)
  {
    PowerGrows(size, width);
    var signBit := Power(size) / 2;
    var flipped := if v >= signBit then v - signBit else v + signBit;
    (flipped + Power(width) - signBit) % Power(width)
  }

  /** That extends the sign. */
  lemma {:induction false} ByFlipping(v: nat, size: nat, width: nat)
    requires v < Power(size) && 0 < size <= width
    ensures if size < width then Flipped(v, size, width) == Extended(v, size, width) else v == Extended(v, size, width)
  {
    PowerGrows(size, width);
    if size < width {
      var signBit, modulus := Power(size) / 2, Power(width);
      assert 2 * signBit == Power(size);
      if v >= signBit {
        Reduced(v - Power(size) + modulus, modulus);
      } else {
        Reduced(v, modulus);
      }
    }
  }

  lemma {:induction false} Reduced(x: nat, modulus: nat)
    requires x < modulus
    ensures x % modulus == x && (x + modulus) % modulus == x
  {
  }
}
