/** The optional value used where the source can fail to produce a result. */
module Wrappers {

  datatype Option<+T> = None | Some(value: T)
}
