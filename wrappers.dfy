/** The optional value used wherever the script gets `undefined`, `NaN` or -1 back. */
module Wrappers {
  datatype Option<+T> = None | Some(value: T)
}
