/** An optional value, used for C's NULL results and for undefined behaviour. */
module Wrappers {

  datatype Option<+T> = None | Some(value: T)

}
