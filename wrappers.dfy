/** The conventional optional value, standing for the source's `T | null` and for a missing property. */
module Wrappers {
  datatype Option<+T> = None | Some(value: T)
}
