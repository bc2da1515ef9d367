/** Optional values: an issue listing entry without a title, a dataset that failed to load. */
module Wrappers {

  datatype Option<+T> = None | Some(value: T)
}
