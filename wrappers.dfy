/** Optional values, used by the parsers that invert the signing string. */
module Wrappers {
  datatype Option<+T> = None | Some(value: T)
}
