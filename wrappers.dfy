/** Optional values, used where the model reports "no result" instead of failing. */
module Wrappers {
  datatype Option<+T> = None | Some(value: T)
}
