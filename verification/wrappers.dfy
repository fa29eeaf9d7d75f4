/** The optional value used for every field of an inbound update that may be
    absent, null or (for strings) empty. */
module Wrappers {
  datatype Option<+T> = None | Some(value: T)
}
