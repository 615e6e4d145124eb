/** The Option datatype used for JavaScript's "value or undefined/null" results. */
module Wrappers {

  datatype Option<+T> = None | Some(value: T)
}
