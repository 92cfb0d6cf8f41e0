/** Optional values, used where the Go code returns nil or a zero value. */
module Wrappers {

  datatype Option<+T> = None | Some(value: T)
}
