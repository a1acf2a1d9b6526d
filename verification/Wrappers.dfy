// The conventional optional value, used for NULL columns and failed lookups.
module Wrappers {
  datatype Option<+T> = None | Some(value: T)
}
