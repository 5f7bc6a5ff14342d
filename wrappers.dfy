/** The absent-value result used throughout the tracer: Python's `None`. */
module Wrappers {

  datatype Option<+T> = None | Some(value: T)

}
