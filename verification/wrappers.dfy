/** Absent-or-present values and success-or-failure outcomes, used for JavaScript's
    null/undefined fields and for settled promises. */
module Wrappers {

  /** `None` stands for JavaScript's `null` or `undefined`. */
  datatype Option<+T> = None | Some(value: T)

  /** A settled promise: fulfilled with a value, or rejected with a reason. */
  datatype Result<+R, +E> = Success(value: R) | Failure(error: E)
}
