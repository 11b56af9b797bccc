/**
 * Decimal numbers as the program's `Decimal` holds them (coefficient and
 * exponent), and powers of ten over the reals.
 */
module Decimals {

  /** 10^k as a real number. */
  function Pow10(k: nat): real
  {
    if k == 0 then 1.0 else 10.0 * Pow10(k - 1)
  }

  lemma {:induction false} Pow10Positive(k: nat)
    ensures Pow10(k) >= 1.0
  {
    if k > 0 {
      Pow10Positive(k - 1);
    }
  }

  /** A non-negative decimal: coefficient times 10^exponent. */
  datatype Decimal = Decimal(coef: nat, exp: int)

  /** Number of decimal digits of a coefficient (zero has one digit). */
  function Digits(c: nat): (n: nat)
    ensures n >= 1
  {
    if c < 10 then 1 else 1 + Digits(c / 10)
  }

  /** `Decimal.adjusted()`: the exponent of the most significant digit. */
  function Adjusted(x: Decimal): int
  {
    x.exp + Digits(x.coef) - 1
  }
}
