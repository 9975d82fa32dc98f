/** Optional values, standing for JavaScript's `undefined` or a caught error. */
module Wrappers {

  datatype Option<+T> = None | Some(value: T)
}
