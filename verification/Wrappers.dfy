/** A value that may be missing: a null pointer, an unset field, or the result of a step that leaves its memory. */
module Wrappers {
  datatype Option<+T> = None | Some(value: T)
}
