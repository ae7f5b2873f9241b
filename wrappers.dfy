/** The absent-or-present value used across the model: a missing attribute, or
    the `NaN` that `parseInt` yields when it finds no digits. */
module Wrappers {
  datatype Option<+T> = None | Some(value: T)
}
