/** Optional values, used where the C code returns a NULL pointer. */
module Wrappers {

  /** `None` stands for a NULL result of the C code, `Some(v)` for a valid pointer to `v`. */
  datatype Option<+T> = None | Some(value: T)
}
