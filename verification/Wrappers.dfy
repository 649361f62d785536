/** The optional value used wherever a query may find no row. */
module Wrappers {
  datatype Option<+T> = None | Some(value: T)
}
