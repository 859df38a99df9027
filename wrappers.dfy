/** Optional values, used for "no detection in this frame" and for a ratio that cannot be computed. */
module Wrappers {
  datatype Option<+T> = None | Some(value: T)
}
