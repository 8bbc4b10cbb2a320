/** Optional values, used for the command cache (which starts out empty) and for decoding. */
module Wrappers {
  datatype Option<+T> = None | Some(value: T)
}
