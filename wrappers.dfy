/** Optional values, used where the C or Java code returns NULL, -1 or "not found". */
module Wrappers {
  datatype Option<+T> = None | Some(value: T)
}
