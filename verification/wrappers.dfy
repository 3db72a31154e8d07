/** Optional values: a form control that may be missing, an attribute that may be absent. */
module Wrappers {
  datatype Option<+T> = None | Some(value: T)
}
