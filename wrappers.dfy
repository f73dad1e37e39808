/** The optional-value datatype used throughout the model for JavaScript's
    `undefined`/`null` results and Python's `dict.get` misses. */
module Wrappers {

  datatype Option<+T> = None | Some(value: T)
}
