/** Optional values, as the repositories' `scalar_one_or_none` returns them. */
module Wrappers {
  datatype Option<+T> = None | Some(value: T)
}
