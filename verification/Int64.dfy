/** Rust's `i64` with its saturating operations. */
module Int64 {
  const MIN: int := -0x8000_0000_0000_0000
  const MAX: int := 0x7FFF_FFFF_FFFF_FFFF

  type i64 = x: int | MIN <= x <= MAX

  function Clamp(x: int): i64 {
    if x < MIN then MIN else if x > MAX then MAX else x
  }

  function SatAdd(a: i64, b: i64): i64 {
    Clamp(a + b)
  }

  function SatSub(a: i64, b: i64): i64 {
    Clamp(a - b)
  }

  function Max(a: i64, b: i64): i64 {
    if a >= b then a else b
  }

  function Min(a: i64, b: i64): i64 {
    if a <= b then a else b
  }
}
