/** The optional value used wherever the JavaScript source has `undefined`, `null` or "nothing". */
module Wrappers {

  datatype Option<+T> = None | Some(value: T)

}
