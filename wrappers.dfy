/** The optional value used wherever the source reports "no result" through a `false` return. */
module Wrappers {
  datatype Option<+T> = None | Some(value: T)
}
