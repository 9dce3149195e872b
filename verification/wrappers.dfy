/** The Some/None datatype used wherever the source returns `None`, finds
    nothing, or raises. */
module Wrappers {

  datatype Option<+T> = None | Some(value: T)
}
