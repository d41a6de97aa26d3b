/** Unsigned 64-bit arithmetic, written out on mathematical integers. */
module Word64 {
  const LIMIT: nat := 0x1_0000_0000_0000_0000
  const MAX_INT64: nat := 0x7FFF_FFFF_FFFF_FFFF

  /** The sum of two uint64 values, wrapping at 2^64. */
  function Add(a: nat, b: nat): (sum: nat)
    ensures a < LIMIT && b < LIMIT ==> sum < LIMIT && (sum == a + b || sum == a + b - LIMIT)
  {
    if a + b < LIMIT then a + b else a + b - LIMIT
  }

  /** The difference of two uint64 values, wrapping below 0. */
  function Sub(a: nat, b: nat): (difference: int)
    ensures a < LIMIT && b < LIMIT ==> 0 <= difference < LIMIT && Add(difference, b) == a
  {
    if a >= b then a - b else a - b + LIMIT
  }

  /** Numbers start again at zero after 18446744073709551615. */
  lemma WrapsAround()
    ensures Add(18446744073709551615, 1) == 0 && Sub(0, 1) == 18446744073709551615
    ensures MAX_INT64 == 9223372036854775807
  {
  }
}
