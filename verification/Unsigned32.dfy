/** Wrapping 32-bit counters. */
module Unsigned32 {
  const U32_SIZE: nat := 0x1_0000_0000

  /** Adding one */
  function Increment(count: nat): nat {
    if count + 1 < U32_SIZE then count + 1 else 0
  }

  /** The counter after `n` increments from zero */
  function Wrapped(n: nat): (r: nat)
    ensures r < U32_SIZE && (n < U32_SIZE ==> r == n)
  {
    n % U32_SIZE
  }

  lemma IncrementWrapped(n: nat)
    ensures Increment(Wrapped(n)) == Wrapped(n + 1)
  {
  }
}
