/** The absent-or-present value used wherever the source passes `null`,
    reads `undefined` or gets `NaN` back. */
module Wrappers {

  datatype Option<+T> = None | Some(value: T)
}
