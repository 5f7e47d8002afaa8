/** The optional value used for absent attributes and absent outcomes. */
module Wrappers {
  datatype Option<+T> = None | Some(value: T)
}
