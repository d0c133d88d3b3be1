/** The optional values the contact table and the request body use for missing fields. */
module Wrappers {

  /** A value that may be absent (SQL NULL, a missing JSON field). */
  datatype Option<+T> = None | Some(value: T)
}
