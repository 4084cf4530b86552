/** Optional values: `None` stands for Go's nil pointer or nil interface. */
module Wrappers {
  datatype Option<+T> = None | Some(value: T)
}
