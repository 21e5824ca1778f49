/** Option, for values the source may find missing (an absent array element reads as `undefined`). */
module Wrappers {
  datatype Option<+T> = None | Some(value: T)
}
