/** The nullable results of the engine (`null` in the original) as an Option. */
module Wrappers {
  datatype Option<+T> = None | Some(value: T)
}
