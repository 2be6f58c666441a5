/** Rust's fixed-width integers and `Option`, as the program's records use them.
    Dafny integers are unbounded, so every width is a subset type and every
    operation that could leave its range is checked where the program performs it.
    Plain `+` and `-` are taken to panic on overflow, as in a build with
    overflow checks enabled. */
module Prelude {

  const U64_LIMIT: int := 0x1_0000_0000_0000_0000
  const U128_LIMIT: int := 0x1_0000_0000_0000_0000_0000_0000_0000_0000
  const I64_MIN: int := -0x8000_0000_0000_0000
  const I64_MAX: int := 0x7fff_ffff_ffff_ffff

  type u8 = x: int | 0 <= x < 0x100
  type u64 = x: int | 0 <= x < 0x1_0000_0000_0000_0000
  type i64 = x: int | -0x8000_0000_0000_0000 <= x <= 0x7fff_ffff_ffff_ffff

  predicate IsI64(x: int) {
    I64_MIN <= x <= I64_MAX
  }

  datatype Option<+T> = None | Some(value: T)

  /** `Ord::max` on two integers. */
  function Max(a: int, b: int): int {
    if a >= b then a else b
  }
}
