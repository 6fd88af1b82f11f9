/** The optional value used for the machine's nullable context fields. */
module Wrappers {

  /** `None` plays the part of the source's `null`. */
  datatype Option<+T> = None | Some(value: T)
}
