/** The one datatype every module here shares. */
module Wrappers {
  datatype Option<+T> = None | Some(value: T)
}
