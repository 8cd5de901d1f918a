/** The optional-value datatype used for PHP's "return nothing" and for
    lookups that may find nothing. */
module Wrappers {

  /** The conventional Some/None datatype. */
  datatype Option<+T> = None | Some(value: T)
}
