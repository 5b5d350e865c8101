/** Option, for the source's null and undefined values. */
module Wrappers {

  datatype Option<+T> = None | Some(value: T)
}
