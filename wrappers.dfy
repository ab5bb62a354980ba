/** Python's `None`-or-value, used for optional attributes, flags and settings. */
module Wrappers {

  datatype Option<+T> = None | Some(value: T)
}
