/** Optional values: a nullable column or an absent setting. */
module Wrappers {
  datatype Option<T> = None | Some(value: T)
}
