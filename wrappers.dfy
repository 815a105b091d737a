/** The optional value used for missing results and failed calls. */
module Wrappers {
  datatype Option<+T> = None | Some(value: T)
}
