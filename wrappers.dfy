/** Option stands for the source's nullable or `undefined` values. */
module Wrappers {
  datatype Option<+T> = None | Some(value: T)
}
