/** Bytes and machine words, with wrapping addition. */
module Words {
  const TWO32: nat := 0x1_0000_0000
  const TWO63: int := 0x8000_0000_0000_0000
  const TWO64: nat := 0x1_0000_0000_0000_0000
  const INT64_MAX: int := TWO63 - 1

  type Byte = n: nat | n < 0x100
  type Uint16 = n: nat | n < 0x1_0000
  type Uint32 = n: nat | n < TWO32
  type Uint64 = n: nat | n < TWO64
  type Int64 = n: int | -TWO63 <= n < TWO63

  function AddUint64(a: Uint64, b: Uint64): Uint64 {
    if a + b < TWO64 then a + b else a + b - TWO64
  }

  function AddInt64(a: Int64, b: Int64): Int64 {
    if a + b >= TWO63 then a + b - TWO64
    else if a + b < -TWO63 then a + b + TWO64
    else a + b
  }

  /** The conversion of an unsigned to a signed word. */
  function Signed(n: Uint64): Int64 { if n < TWO63 then n else n - TWO64 }

  // ---------------------------------------------------------------- arithmetic

  lemma DivBounds(x: int, d: int)
    requires x >= 0 && d > 0
    ensures x / d * d <= x < (x / d + 1) * d && 0 <= x / d
  {
    assert x == x / d * d + x % d;
  }

  lemma Monotone(a: int, b: int, d: int)
    requires a <= b && d > 0
    ensures a * d <= b * d
  {
  }
}
