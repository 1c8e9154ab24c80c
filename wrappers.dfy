/** The optional value used wherever the scripts return `None` or skip an input. */
module Wrappers {
  datatype Option<+T> = None | Some(value: T)
}
