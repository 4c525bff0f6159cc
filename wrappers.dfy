/** The optional value used for JavaScript's `undefined` results (a missing
    storage key, an `Array.prototype.find` that finds nothing). */
module Wrappers {

  datatype Option<+T> = None | Some(value: T)
}
