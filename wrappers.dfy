/** The absent-or-present value used wherever the application returns `null`
    or reads a storage key that may be missing. */
module Wrappers {

  datatype Option<+T> = None | Some(value: T)

}
