/** Optional values, used for record fields that a header may not declare. */
module Wrappers {

  datatype Option<+T> = None | Some(value: T)
}
