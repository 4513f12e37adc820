/** The absent-value marker: a JavaScript `null` or `undefined` becomes `None`. */
module Wrappers {

  datatype Option<+T> = None | Some(value: T)
}
