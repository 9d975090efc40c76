/** Failure-capable results shared by the modules of the save engine. */
module Wrappers {

  /** A value that may be missing: a file that cannot be read, text that does not decode. */
  datatype Option<+T> = None | Some(value: T)
}
