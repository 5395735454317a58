/** The optional value used wherever the extension returns `null` for "nothing". */
module Wrappers {

  datatype Option<+T> = None | Some(value: T)
}
