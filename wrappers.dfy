/** The optional value used for C#'s nullable results and for calls that throw. */
module Wrappers {

  datatype Option<+T> = None | Some(value: T)
}
