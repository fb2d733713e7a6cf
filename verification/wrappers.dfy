/** Small helper types shared by the other modules. */
module Wrappers {

  /** An optional value: `None` stands for Ruby's `nil` in an instance variable
      or for a key missing from an options hash. */
  datatype Option<+T> = None | Some(value: T)
}
