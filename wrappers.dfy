/** The optional value used wherever JavaScript may hand over `undefined`. */
module Wrappers {

  datatype Option<+T> = None | Some(value: T)

}
