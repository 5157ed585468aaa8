/** Python's `None`-or-value, used for missing dictionary keys and failed regex searches. */
module Wrappers {

  datatype Option<+T> = None | Some(value: T)

}
