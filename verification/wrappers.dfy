/** The optional value used for the source's `undefined` results and swallowed failures. */
module Wrappers {

  datatype Option<+T> = None | Some(value: T)
}
