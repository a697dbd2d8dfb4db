/** An optional value: a header that may be absent, a lookup that may find nothing. */
module Wrappers {
  datatype Option<T> = None | Some(value: T)
}
