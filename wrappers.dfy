/** The optional value used for a nullable column, a payload that may fail to parse and a
    lookup that may find nothing. */
module Wrappers {
  datatype Option<+T> = None | Some(value: T)
}
