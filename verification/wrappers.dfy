/** The optional value used wherever the service has "maybe a value". */
module Wrappers {

  datatype Option<+T> = None | Some(value: T)
}
