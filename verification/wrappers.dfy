/** The optional-value datatype used for a check set that may be absent. */
module Wrappers {

  /** `None` stands for JavaScript's `null`/`undefined`; `Some` for a present value. */
  datatype Option<+T> = None | Some(value: T)
}
