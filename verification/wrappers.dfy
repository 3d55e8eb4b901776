/** Failure-carrying datatypes shared by the rest of the model. */
module Wrappers {

  /** Python's `None` or a present value. */
  datatype Option<+T> = None | Some(value: T)

  /** Completion of a step: `Pass` when it returned normally, `Fail` when it raised. */
  datatype Outcome<+E> = Pass | Fail(error: E)
}
