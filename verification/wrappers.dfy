/** The optional value returned by `Array.prototype.find`: `undefined` is `None`. */
module Wrappers {

  datatype Option<+T> = None | Some(value: T)
}
