/** The source's 32-bit integers. */
module Integers {

  const U32_LIMIT: nat := 0x1_0000_0000
  const I32_LIMIT: int := 0x8000_0000

  type u32 = n: nat | n < U32_LIMIT

  type i32 = n: int | -I32_LIMIT <= n < I32_LIMIT
}
