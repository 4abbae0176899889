/** The absent-or-present value used for lookups and for parsing that may fail. */
module Wrappers {

  datatype Option<+T> = None | Some(value: T)
}
