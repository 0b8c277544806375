/** Optional values: a parsed player input that may be missing, a bot choice not yet made. */
module Wrappers {

  datatype Option<+T> = None | Some(value: T)
}
