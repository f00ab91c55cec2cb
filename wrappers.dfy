/** Optional values: a JavaScript `undefined` (a missing argument, a ray that hits nothing)
    is `None`. */
module Wrappers {
  datatype Option<+T> = None | Some(value: T)
}
