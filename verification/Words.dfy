/**
 The 64-bit unsigned arithmetic that symbol addresses and sizes use.  Values are mathematical
 integers below 2^64; every operation that can wrap around in the program is written out here.
 */
module Words {
  const ADDRESS_SPACE: int := 0x1_0000_0000_0000_0000

  /** `Module::Address`: an unsigned 64-bit integer. */
  type Address = a: int | 0 <= a < ADDRESS_SPACE

  /** Any integer reduced to 64 bits, for values less than one word away from the word range. */
  function Wrap(x: int): Address
    requires -ADDRESS_SPACE <= x < 2 * ADDRESS_SPACE
  {
    if x < 0 then x + ADDRESS_SPACE else if x < ADDRESS_SPACE then x else x - ADDRESS_SPACE
  }

  function WrapAdd(a: Address, b: Address): Address {
    Wrap(a + b)
  }

  function WrapSub(a: Address, b: Address): Address {
    Wrap(a - b)
  }

  function Min(a: int, b: int): int {
    if a <= b then a else b
  }

  function Max(a: int, b: int): int {
    if a <= b then b else a
  }
}
