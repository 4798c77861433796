/** The optional value used where a search of the source may find nothing. */
module Wrappers {
  datatype Option<+T> = None | Some(value: T)
}
