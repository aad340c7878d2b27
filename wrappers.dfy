/** Option values, used for Python's None and for the paths where the source raises. */
module Wrappers {
  datatype Option<T> = None | Some(value: T)
}
