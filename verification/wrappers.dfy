/** Optional values: the model's stand-in for a pointer that may be null. */
module Wrappers {

  /** `None` plays the part of `nullptr`; `Some(v)` of a pointer to `v`. */
  datatype Option<+T> = None | Some(value: T)
}
