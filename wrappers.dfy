/** Optional values: the source's `None` (for instance an absent `before` field). */
module Wrappers {
  datatype Option<+T> = None | Some(value: T)
}
