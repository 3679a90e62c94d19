/** Optional values: the model's stand-in for Python's `None`. */
module Wrappers {

  /** `None` is an absent value; `Some(v)` is a present one. */
  datatype Option<+T> = None | Some(value: T)
}
