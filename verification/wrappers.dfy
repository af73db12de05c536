/** The Some/None datatype used wherever the source has `undefined`, `NaN` or a
    value that may be missing. */
module Wrappers {

  datatype Option<+T> = None | Some(value: T)
}
