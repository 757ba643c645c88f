/** Optional values: `None` stands for JavaScript's `null`/`undefined` and for `NaN` from a failed parse. */
module Wrappers {
  datatype Option<+T> = None | Some(value: T)
}
