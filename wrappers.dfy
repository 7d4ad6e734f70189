/** Optional values: `None` stands for JavaScript's NaN / null results. */
module Wrappers {
  datatype Option<+T> = None | Some(value: T)
}
