/** The optional value used where the source either has a result or reports an error it then ignores. */
module Wrappers {
  datatype Option<+T> = None | Some(value: T)
}
