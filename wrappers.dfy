/** The optional value used for nil-able attributes and lookups. */
module Wrappers {

  datatype Option<+T> = None | Some(value: T)
}
