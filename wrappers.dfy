/** The optional value that stands for a JavaScript result that may be `null`. */
module Wrappers {

  datatype Option<+T> = None | Some(value: T)
}
