/** Optional values: the model's rendering of a nullable column. */
module Wrappers {

  datatype Option<+T> = None | Some(value: T)
}
