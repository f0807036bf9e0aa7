/** The optional-value datatype used for the extension's nullable slots. */
module Wrappers {

  datatype Option<+T> = None | Some(value: T)
}
