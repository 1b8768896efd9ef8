/** The optional value used for "no match" and for "leave the span unchanged". */
module Wrappers {

  datatype Option<+T> = None | Some(value: T)
}
