/** Rust's `Option`, `Result` and `Result<(), E>` as datatypes, for the program's optional values
    and fallible results. */
module Wrappers {

  /** An optional value, as Rust's `Option`. */
  datatype Option<+T> = None | Some(value: T)

  /** A value or an error, as Rust's `Result`. */
  datatype Result<+T, +E> = Ok(value: T) | Err(error: E)

  /** Success without a value, or an error: Rust's `Result<(), E>`. */
  datatype Outcome<+E> = Pass | Fail(error: E)
}

/** The machine integer ranges of the program, for a 64-bit target. */
module Ints {

  type u8 = x: nat | x < 0x100
  type u32 = x: nat | x < 0x1_0000_0000
  type u64 = x: nat | x < 0x1_0000_0000_0000_0000

  /** The model fixes a 64-bit target, so `usize` has the range of `u64`. */
  type usize = u64
}
