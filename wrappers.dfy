/** Option, for the SQL NULL that an aggregate over no rows yields. */
module Wrappers {

  datatype Option<+T> = None | Some(value: T)
}
