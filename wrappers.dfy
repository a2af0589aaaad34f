/** Optional values: a consume step that may find nothing to take. */
module Wrappers {

  datatype Option<+T> = None | Some(value: T)
}
