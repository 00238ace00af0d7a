/** The optional value used for nullable results (`T | null`, `T | undefined`). */
module Wrappers {
  datatype Option<+T> = None | Some(value: T)
}
