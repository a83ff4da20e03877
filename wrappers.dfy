/** Optional values: the source's `Optional<T>` and its nullable returns. */
module Wrappers {

  datatype Option<+T> = None | Some(value: T)
}
