/** Rust's fixed-width integer types, as ranges of mathematical integers (a 64-bit target). */
module Integers {

  /** `u8::MAX`. */
  const U8_MAX: nat := 0xFF

  /** `u16::MAX`. */
  const U16_MAX: nat := 0xFFFF

  /** `u32::MAX`. */
  const U32_MAX: nat := 0xFFFF_FFFF

  /** `u64::MAX`. */
  const U64_MAX: nat := 0xFFFF_FFFF_FFFF_FFFF

  /** `usize::MAX` on a 64-bit target. */
  const USIZE_MAX: nat := U64_MAX

  /** `i32::MIN` and `i32::MAX`. */
  const I32_MIN: int := -0x8000_0000
  const I32_MAX: int := 0x7FFF_FFFF

  /** A Rust `u8`. */
  type U8 = n: nat | n <= U8_MAX

  /** A Rust `u16`. */
  type U16 = n: nat | n <= U16_MAX

  /** A Rust `u32`. */
  type U32 = n: nat | n <= U32_MAX

  /** A Rust `u64`. */
  type U64 = n: nat | n <= U64_MAX

  /** A Rust `usize`. */
  type USize = n: nat | n <= USIZE_MAX

  /** A Rust `NonZeroU64`. */
  type NonZeroU64 = n: nat | 1 <= n <= U64_MAX witness 1

  /** A Rust `i32`. */
  type I32 = n: int | I32_MIN <= n <= I32_MAX
}
