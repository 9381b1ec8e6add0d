/** The optional value used for missing dates and failed requests. */
module Wrappers {

  datatype Option<+T> = None | Some(value: T)

}
