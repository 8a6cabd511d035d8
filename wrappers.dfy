/** The optional value that stands for a JavaScript property or array cell
    that may be `null` or `undefined`. */
module Wrappers {
  datatype Option<+T> = None | Some(value: T)
}
