/** The optional value used wherever PHP yields `null` for something absent. */
module Wrappers {

  datatype Option<+T> = None | Some(value: T)
}
