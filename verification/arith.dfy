/** Fixed-width integers of the program and Rust's checked arithmetic on them. */
module Arith {
  import opened Wrappers

  const U64_MAX: int := 0xFFFF_FFFF_FFFF_FFFF

  type u64 = x: int | 0 <= x <= U64_MAX
  type u32 = x: int | 0 <= x <= 0xFFFF_FFFF
  type i64 = x: int | -0x8000_0000_0000_0000 <= x <= 0x7FFF_FFFF_FFFF_FFFF

  /** `u64::checked_add`: None instead of wrapping past 2^64 - 1. */
  function CheckedAdd(a: u64, b: u64): Option<u64>
  {
    if a + b <= U64_MAX then Some(a + b) else None
  }

  /** `u64::checked_sub`: None instead of going below zero. */
  function CheckedSub(a: u64, b: u64): Option<u64>
  {
    if b <= a then Some(a - b) else None
  }

  /** `u64::checked_mul`: None instead of wrapping past 2^64 - 1. */
  function CheckedMul(a: u64, b: u64): Option<u64>
  {
    if a * b <= U64_MAX then Some(a * b) else None
  }

  function Min(a: int, b: int): int
  {
    if a <= b then a else b
  }

  function Max(a: int, b: int): int
  {
    if a >= b then a else b
  }
}
