/** The optional value used where the source either produces a result or throws. */
module Wrappers {

  datatype Option<+T> = None | Some(value: T)
}
