/** The optional value used for Python's `None`-or-value arguments and for a
    backing file that may be missing or not valid JSON. */
module Wrappers {
  datatype Option<+T> = None | Some(value: T)
}
