/** The optional value used for the response's terminal list and for "no reply". */
module Wrappers {

  datatype Option<+T> = None | Some(value: T)
}
