/** Optional values, used for the zero-wait queue operations and for conversions that may fail. */
module Wrappers {

  datatype Option<+T> = None | Some(value: T)
}
