/** The optional value used for every outcome that can be missing: an answer stream that
    runs out, a mode of an empty column, a list index that is out of range. */
module Wrappers {

  datatype Option<+T> = None | Some(value: T)
}
