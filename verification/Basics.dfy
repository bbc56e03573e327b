/** Stock definitions shared by the other modules. */
module Basics {

  datatype Option<+T> = None | Some(value: T)

  /** Counting down stops at zero. */
  function Max0(n: int): nat { if n > 0 then n else 0 }

  const DIGITS := "0123456789"

  /** Decimal digits, as Go prints a number. */
  function Decimal(n: nat): string { (if n < 10 then "" else Decimal(n / 10)) + [DIGITS[n % 10]] }
}
