/** The optional value used for SQL NULL, for "no row" and for JavaScript's NaN. */
module Wrappers {

  datatype Option<+T> = None | Some(value: T)
}
