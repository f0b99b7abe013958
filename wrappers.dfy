/** The optional value used for fields that a store may leave null and for lookups that may miss. */
module Wrappers {
  datatype Option<+T> = None | Some(value: T)
}
