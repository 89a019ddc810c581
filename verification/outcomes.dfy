/** The Rust-side result shapes the wrapper produces.
    `Outcome` is `anyhow::Result<T>` extended with the one way a wrapper call can
    leave without returning: a panic that unwinds out of it. */
module Outcomes {

  /** `std::option::Option`. */
  datatype Option<+T> = None | Some(value: T)

  /** `anyhow::Result<T>` plus unwinding: `Err` carries the formatted error text,
      `Panic` the formatted panic message. */
  datatype Outcome<+T> = Ok(value: T) | Err(message: string) | Panic(message: string)

  /** True iff `prefix` is an initial segment of `s`. */
  predicate StartsWith(s: string, prefix: string)
  {
    |prefix| <= |s| && s[..|prefix|] == prefix
  }
}
