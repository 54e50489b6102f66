/** Conversions between C integer types (C11 section 6.3.1.3; the kernel is built so that signed
    arithmetic wraps). */
module CInts {

  const TWO_32 := 0x1_0000_0000
  const TWO_64 := 0x1_0000_0000_0000_0000

  function U32(n: int): nat {
    n % TWO_32
  }

  /** The int congruent to n. */
  function S32(n: int): (r: int)
    ensures -0x8000_0000 <= r < 0x8000_0000
    ensures (n - r) % TWO_32 == 0
  {
    if -0x8000_0000 <= n < 0x8000_0000 then n
    else if n % TWO_32 < 0x8000_0000 then n % TWO_32
    else n % TWO_32 - TWO_32
  }

  /** A loff_t. */
  type Loff = n: int | -0x8000_0000_0000_0000 <= n < 0x8000_0000_0000_0000

  function U64(n: Loff): nat {
    if n < 0 then n + TWO_64 else n
  }

  /** The sum of two loff_t, wrapped. */
  function AddLoff(a: Loff, b: Loff): Loff {
    if a + b >= 0x8000_0000_0000_0000 then a + b - TWO_64
    else if a + b < -0x8000_0000_0000_0000 then a + b + TWO_64
    else a + b
  }

  type Byte = n: int | 0 <= n < 256
}
