/** Option datatype shared by the modules of the dues engine. */
module Wrappers {
  datatype Option<+T> = None | Some(value: T)
}
