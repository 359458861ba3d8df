/**
 Numbers in decimal: what an output stream prints, and what the digits of a text stand for.
 */
module DecimalNumbers {
  function DecimalText(n: nat): (s: string)
    ensures s != [] && forall c <- s :: '0' <= c <= '9'
  {
    if n < 10 then ["0123456789"[n]] else DecimalText(n / 10) + ["0123456789"[n % 10]]
  }

  function SignedText(n: int): string { if n < 0 then ['-'] + DecimalText(-n) else DecimalText(n) }

  predicate IsNumeral(s: string) { s != [] && forall c <- s :: '0' <= c <= '9' }

  /** The number that digits stand for. */
  function DecimalValue(s: string): int {
    if s == [] then 0 else 10 * DecimalValue(s[..|s| - 1]) + (s[|s| - 1] as int - '0' as int)
  }

  /** A number that was printed is read as itself. */
  lemma {:induction false} ReadDecimalText(n: nat)
    ensures DecimalValue(DecimalText(n)) == n
  {
    if n >= 10 {
      ReadDecimalText(n / 10);
      assert DecimalText(n)[..|DecimalText(n)| - 1] == DecimalText(n / 10);
    } else {
      assert DecimalText(n)[..0] == [];
    }
  }

  lemma {:induction false} FirstDigit(n: nat)
    ensures '0' <= DecimalText(n)[0] <= '9'
  {
    assert DecimalText(n)[0] in DecimalText(n);
  }
}
