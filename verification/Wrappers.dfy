/** What several modules share. */
module Wrappers {

  /** A value or its absence. */
  datatype Option<+T> = None | Some(value: T)
}
