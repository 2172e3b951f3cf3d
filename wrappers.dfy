/** The optional value used for coordinates that may be absent (a pointer outside the plot). */
module Wrappers {

  datatype Option<+T> = None | Some(value: T)
}
