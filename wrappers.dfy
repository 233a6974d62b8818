/** Optional values, used where the reporting code reads a key that may be absent. */
module Wrappers {

  datatype Option<+T> = None | Some(value: T)
}
