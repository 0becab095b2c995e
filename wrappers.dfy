/** The optional value used for JavaScript's `NaN` results and for parsers that can fail. */
module Wrappers {

  datatype Option<+T> = None | Some(value: T)
}
