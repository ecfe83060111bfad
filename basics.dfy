/** Values shared by every part of the quota engine: the optional value the
    source returns, the panics it can raise, and the fixed-width integers of
    its records. */
module Basics {

  datatype Option<+T> = None | Some(value: T)

  /** Why a computation panicked (an `unwrap` on a failed value, a checked
      multiplication that overflowed, or a failed backend request). */
  datatype Failure =
    | NoDigits          // the quota string held no digit, so the number parse failed
    | DigitsOverflow    // the digits do not fit in 64 bits
    | ProductOverflow   // quota times unit multiplier does not fit in 64 bits
    | UnknownUnit       // `unwrap` of the `None` that an unknown unit gives
    | InvalidQuota      // some configured quota string failed to convert
    | InvalidDate       // the cycle start is not a calendar date
    | FetchFailed       // a backend request or its JSON decoding failed

  /** Either the value a computation returns or the panic that ends it. */
  datatype Outcome<+T> = Ok(value: T) | Panic(reason: Failure)

  const U64_MAX: int := 0xFFFF_FFFF_FFFF_FFFF

  type u8 = x: int | 0 <= x < 0x100
  type u64 = x: int | 0 <= x <= 0xFFFF_FFFF_FFFF_FFFF
}
