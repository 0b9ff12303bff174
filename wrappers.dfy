/** The Some/None datatype used for partial results (a parse that fails, an iterator that is exhausted). */
module Wrappers {
  datatype Option<+T> = None | Some(value: T)
}
