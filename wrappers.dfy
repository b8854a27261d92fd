/** Optional values, standing for JavaScript's `undefined`/`null` where the JavaScript code uses them. */
module Wrappers {

  datatype Option<+T> = None | Some(value: T)
}
