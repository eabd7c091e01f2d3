/** Vocabulary shared by every component: optional values, results, and the opaque identifiers. */
module Common {

  datatype Option<+T> = None | Some(value: T)

  datatype Result<+T, +E> = Ok(value: T) | Err(error: E)

  /** An opaque identifier. Time-ordered UUIDs are compared, so identifiers carry an order. */
  type Uuid = nat

  const I64_MAX: int := 0x7FFF_FFFF_FFFF_FFFF
  const I64_MIN: int := -0x8000_0000_0000_0000
  const U64_MAX: int := 0xFFFF_FFFF_FFFF_FFFF

  /** Whether a value survives the conversion to a signed 64-bit column. */
  predicate FitsI64(value: int) {
    I64_MIN <= value <= I64_MAX
  }

  function Min(a: int, b: int): int {
    if a <= b then a else b
  }

  function Max(a: int, b: int): int {
    if a >= b then a else b
  }
}
