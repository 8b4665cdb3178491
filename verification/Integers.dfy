/**
  64-bit unsigned integers and the conversion of any integer to one.
 */
module Integers {
  const TWO_TO_THE_64: int := 0x1_0000_0000_0000_0000

  type U64 = n: int | 0 <= n < TWO_TO_THE_64

  /** Unsigned 64-bit conversion of any integer. */
  function Wrap(n: int): (r: U64) {
    n % TWO_TO_THE_64
  }

  lemma WrapAdd(n: int, k: int)
    ensures Wrap(Wrap(n) + k) == Wrap(n + k)
  {
  }

  lemma WrapId(n: int)
    requires 0 <= n < TWO_TO_THE_64
    ensures Wrap(n) == n
  {
  }
}
