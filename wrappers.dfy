/** The optional value used wherever the JavaScript code holds `null` or a missing property. */
module Wrappers {

  datatype Option<+T> = None | Some(value: T)
}
