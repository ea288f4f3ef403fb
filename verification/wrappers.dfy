/** Optional values and success-or-revert results shared by the other modules. */
module Wrappers {

  /** A value that may be missing; `None` also stands for JavaScript's `undefined`
      and for a helper that throws instead of returning. */
  datatype Option<+T> = None | Some(value: T)

  /** The outcome of a contract call: the new state, or the reason the call reverted. */
  datatype Result<+R, +E> = Success(value: R) | Failure(error: E)
}
