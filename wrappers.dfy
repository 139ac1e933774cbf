/** The optional value used for attribute reads and for the nullable fields of the keyboard. */
module Wrappers {

  datatype Option<+T> = None | Some(value: T)
}
