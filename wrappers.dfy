/** An optional value, for exchange reads and lookups that can come back empty. */
module Wrappers {

  datatype Option<T> = None | Some(value: T)
}
