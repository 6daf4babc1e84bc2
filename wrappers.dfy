/** Option, the stand-in for JavaScript's null/undefined, shared by every module. */
module Wrappers {
  datatype Option<+T> = None | Some(value: T)
}
