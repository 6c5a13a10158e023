/** The optional value used for SQL NULL, "no row" and "no verdict". */
module Wrappers {
  datatype Option<+T> = None | Some(value: T)
}
