/** The optional-value type used for lookups that may find nothing and steps that may fail. */
module Wrappers {
  datatype Option<+T> = None | Some(value: T)
}
