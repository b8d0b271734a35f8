/** The absent-or-present value that stands in for the source's NULL control pointer. */
module Wrappers {
  datatype Option<+T> = None | Some(value: T)
}
