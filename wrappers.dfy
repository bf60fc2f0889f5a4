/** Optional values: the `undefined`/`null` of the JavaScript source. */
module Wrappers {

  datatype Option<+T> = None | Some(value: T)
}
